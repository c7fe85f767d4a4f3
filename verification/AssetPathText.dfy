/**
 Model of the asset path parser and printer of voker-asset (`path.rs`): the character loop of
 `parse_internal` against a declarative grammar, and `Display` as its inverse.
 */
module AssetPathText {

  datatype Option<T> = None | Some(value: T)

  /** The three parts of an asset path: `source://path#label`. */
  datatype Parts = Parts(source: Option<string>, path: string, subLabel: Option<string>)

  datatype ParseError = InvalidSourceSyntax | InvalidLabelSyntax | MissingSource | MissingLabel

  datatype ParseResult = Ok(parts: Parts) | Err(error: ParseError)

  /** `Display`. */
  function Print(p: Parts): string {
    (match p.source case Some(name) => name + "://" case None => "")
    + p.path
    + (match p.subLabel case Some(text) => "#" + text case None => "")
  }

  // ---------------------------------------------------------------------------
  // The grammar

  /** `://` starts at position `i`. */
  predicate Delim(s: string, i: nat) {
    i + 3 <= |s| && s[i] == ':' && s[i + 1] == '/' && s[i + 2] == '/'
  }

  predicate HasDelim(s: string) {
    exists i :: 0 <= i < |s| && Delim(s, i)
  }

  /**
   The triples that have a spelling: a source is not empty and holds neither `#` nor `://`; a label
   is not empty and holds neither; without a source the path holds no `://`, without a label no `#`.
   */
  predicate WellFormed(p: Parts) {
    && (p.source.Some? ==> p.source.value != "" && '#' !in p.source.value && !HasDelim(p.source.value))
    && (p.source.None? ==> !HasDelim(p.path))
    && (p.subLabel.Some? ==> p.subLabel.value != "" && '#' !in p.subLabel.value && !HasDelim(p.subLabel.value))
    && (p.subLabel.None? ==> '#' !in p.path)
  }

  /** The first `://` at or after `from`. */
  function FirstDelim(s: string, from: nat): (d: Option<nat>)
    ensures d.Some? ==> from <= d.value && Delim(s, d.value)
    ensures forall i :: from <= i && Delim(s, i) ==> d.Some? && d.value <= i
    decreases |s| - from
  {
    if from >= |s| then None else if Delim(s, from) then Some(from) else FirstDelim(s, from + 1)
  }

  /** The last `#` before `to`. */
  function LastHash(s: string, to: nat): (h: Option<nat>)
    requires to <= |s|
    ensures h.Some? ==> h.value < to && s[h.value] == '#'
    ensures forall i :: 0 <= i < to && s[i] == '#' ==> h.Some? && i <= h.value
  {
    if to == 0 then None else if s[to - 1] == '#' then Some(to - 1) else LastHash(s, to - 1)
  }

  /**
   What a string means: the source ends at the first `://`, the label starts after the last `#`.
   Of several errors the first in this order is reported: a `#` in the source, a `://` in the
   label, an empty source, an empty label.
   */
  function Parse(s: string): ParseResult {
    var d := FirstDelim(s, 0);
    var h := LastHash(s, |s|);
    if d.Some? && '#' in s[..d.value] then Err(InvalidSourceSyntax)
    else if h.Some? && FirstDelim(s, h.value + 1).Some? then Err(InvalidLabelSyntax)
    else if d.Some? && d.value == 0 then Err(MissingSource)
    else if h.Some? && h.value + 1 == |s| then Err(MissingLabel)
    else
      var start := if d.Some? then d.value + 3 else 0;
      var end := if h.Some? then h.value else |s|;
      assert d.Some? && h.Some? ==> s[h.value] !in s[..d.value];
      assert start <= end;
      Ok(Parts(
        if d.Some? then Some(s[..d.value]) else None,
        s[start..end],
        if h.Some? then Some(s[h.value + 1..]) else None))
  }

  // ---------------------------------------------------------------------------
  // Parse and print are inverse

  lemma Reassemble(s: string, d: Option<nat>, start: nat, end: nat, h: Option<nat>)
    requires start <= end <= |s|
    requires if d.Some? then start == d.value + 3 && Delim(s, d.value) else start == 0
    requires if h.Some? then end == h.value < |s| && s[end] == '#' else end == |s|
    ensures Print(Parts(if d.Some? then Some(s[..d.value]) else None, s[start..end], if h.Some? then Some(s[h.value + 1..]) else None)) == s
  {
    if d.Some? { SourceSpelling(s, d.value); }
    if h.Some? { LabelSpelling(s, h.value); }
    ThreePieces(s, start, end);
  }

  lemma SourceSpelling(s: string, d: nat)
    requires Delim(s, d)
    ensures s[..d] + "://" == s[..d + 3]
  {
  }

  lemma LabelSpelling(s: string, h: nat)
    requires h < |s| && s[h] == '#'
    ensures "#" + s[h + 1..] == s[h..]
  {
  }

  lemma ThreePieces(s: string, start: nat, end: nat)
    requires start <= end <= |s|
    ensures s[..start] + s[start..end] + s[end..] == s
    ensures start == 0 ==> s[start..end] + s[end..] == s && "" + s[start..end] + s[end..] == s
    ensures end == |s| ==> s[..start] + s[start..end] + "" == s
    ensures start == 0 && end == |s| ==> "" + s[start..end] + "" == s
  {
  }

  lemma PrintAfterParse(s: string)
    requires Parse(s).Ok?
    ensures Print(Parse(s).parts) == s
  {
    hide Print;
    var d, h := FirstDelim(s, 0), LastHash(s, |s|);
    assert d.Some? && h.Some? ==> s[h.value] !in s[..d.value];
    Reassemble(s, d, if d.Some? then d.value + 3 else 0, if h.Some? then h.value else |s|, h);
  }

  /** A part of `s` holds no `://` if none starts in it. */
  lemma NoDelimInside(s: string, from: nat, to: nat)
    requires from <= to <= |s|
    requires forall i :: from <= i && i + 3 <= to ==> !Delim(s, i)
    ensures !HasDelim(s[from..to])
  {
    forall i | 0 <= i < to - from ensures !Delim(s[from..to], i) {
      assert Delim(s[from..to], i) ==> Delim(s, from + i);
    }
  }

  lemma ParsedIsWellFormed(s: string)
    requires Parse(s).Ok?
    ensures WellFormed(Parse(s).parts)
  {
    var d, h := FirstDelim(s, 0), LastHash(s, |s|);
    var end := if h.Some? then h.value else |s|;
    if d.Some? {
      NoDelimInside(s, 0, d.value);
    } else {
      NoDelimInside(s, 0, end);
    }
    if h.Some? {
      NoDelimInside(s, h.value + 1, |s|);
      assert s[h.value + 1..|s|] == s[h.value + 1..];
    }
  }

  lemma PrintedDelims(p: Parts)
    requires WellFormed(p)
    ensures var s := Print(p);
            && (p.source.Some? ==> FirstDelim(s, 0) == Some(|p.source.value|))
            && (p.source.None? ==> FirstDelim(s, 0) == None)
  {
    var s := Print(p);
    if p.source.Some? {
      var n := |p.source.value|;
      assert Delim(s, n);
      forall i | 0 <= i < n ensures !Delim(s, i) {
        assert Delim(s, i) && i + 3 <= n ==> Delim(p.source.value, i);
      }
    } else {
      forall i | 0 <= i ensures !Delim(s, i) {
        if Delim(s, i) {
          if i + 3 <= |p.path| {
            assert Delim(p.path, i);
          } else if p.subLabel.Some? && i > |p.path| {
            assert Delim(p.subLabel.value, i - |p.path| - 1);
          }
        }
      }
    }
  }

  lemma PrintedHash(p: Parts)
    requires WellFormed(p)
    ensures var s := Print(p);
            && (p.subLabel.Some? ==> LastHash(s, |s|) == Some(|s| - |p.subLabel.value| - 1))
            && (p.subLabel.None? ==> LastHash(s, |s|) == None)
  {
    var s := Print(p);
    if p.subLabel.Some? {
      var h := |s| - |p.subLabel.value| - 1;
      assert s[h] == '#' && s[h + 1..] == p.subLabel.value;
      forall i | h < i < |s| ensures s[i] != '#' {
        assert s[i] == p.subLabel.value[i - h - 1];
      }
    } else {
      forall i | 0 <= i < |s| ensures s[i] != '#' {
        if p.source.Some? && i < |p.source.value| {
          assert s[i] == p.source.value[i];
        } else if i >= |s| - |p.path| {
          assert s[i] == p.path[i - (|s| - |p.path|)];
        }
      }
    }
  }

  lemma ParseAfterPrint(p: Parts)
    requires WellFormed(p)
    ensures Parse(Print(p)) == Ok(p)
  {
    var s := Print(p);
    PrintedDelims(p);
    PrintedHash(p);
    var d, h := FirstDelim(s, 0), LastHash(s, |s|);
    if d.Some? {
      assert s[..d.value] == p.source.value;
    }
    if h.Some? {
      assert s[h.value + 1..] == p.subLabel.value;
      forall i | h.value + 1 <= i ensures !Delim(s, i) {
        assert Delim(s, i) ==> Delim(p.subLabel.value, i - h.value - 1);
      }
    }
    var start := if d.Some? then d.value + 3 else 0;
    var end := if h.Some? then h.value else |s|;
    assert s[start..end] == p.path;
  }

  /**
   The parser accepts exactly the spellings of well-formed triples, and each triple has one
   spelling: parsing yields `p` if and only if `p` is well formed and prints to the string.
   */
  lemma ParseAndPrintAreInverse(s: string, p: Parts)
    ensures Parse(s) == Ok(p) <==> WellFormed(p) && Print(p) == s
  {
    if Parse(s) == Ok(p) {
      PrintAfterParse(s);
      ParsedIsWellFormed(s);
    }
    if WellFormed(p) && Print(p) == s { ParseAfterPrint(p); }
  }

  /** Printing and parsing again gives a triple back exactly when it is well formed. */
  lemma RoundTripExactlyForWellFormed(p: Parts)
    ensures Parse(Print(p)) == Ok(p) <==> WellFormed(p)
  {
    ParseAndPrintAreInverse(Print(p), p);
  }

  // ---------------------------------------------------------------------------
  // The character loop

  /** How much of `://` the characters just before position `i` match. */
  function Matched(s: string, i: nat): nat
    requires i <= |s|
  {
    if i >= 2 && s[i - 2] == ':' && s[i - 1] == '/' then 2
    else if i >= 1 && s[i - 1] == ':' then 1
    else 0
  }

  lemma MatchedAtStart(s: string)
    ensures Matched(s, 0) == 0
  {
  }

  /** One character more: the counter moves on, or `://` is complete. */
  lemma MatchedNext(s: string, i: nat)
    requires i < |s|
    ensures Matched(s, i + 1) == if s[i] == ':' then 1 else if s[i] == '/' && Matched(s, i) == 1 then 2 else 0
    ensures Matched(s, i) <= 2 && (i < 2 ==> Matched(s, i) < 2)
    ensures i >= 2 ==> (Delim(s, i - 2) <==> Matched(s, i) == 2 && s[i] == '/')
  {
  }

  /** `parse_internal`: one pass with a match counter. */
  method ParseInternal(s: string) returns (r: ParseResult)
    ensures r == Parse(s)
  {
    hide FirstDelim, LastHash, Matched, Parse;
    MatchedAtStart(s);
    var sourceEnd: Option<nat> := None;
    var pathStart, pathEnd := 0, |s|;
    var labelStart: Option<nat> := None;
    var matched := 0;
    var lastFound: nat := 0;
    for i := 0 to |s|
      invariant matched == Matched(s, i)
      invariant labelStart.None? ==> pathEnd == |s| && forall k :: 0 <= k < i ==> s[k] != '#'
      invariant labelStart.Some? ==> 0 < labelStart.value <= i && pathEnd == labelStart.value - 1 && s[pathEnd] == '#'
                                     && forall k :: labelStart.value <= k < i ==> s[k] != '#'
      invariant sourceEnd.None? ==> pathStart == 0 && forall k :: 0 <= k && k + 3 <= i ==> !Delim(s, k)
      invariant sourceEnd.Some? ==> Delim(s, sourceEnd.value) && pathStart == sourceEnd.value + 3 <= i
                                    && '#' !in s[..sourceEnd.value]
                                    && forall k :: 0 <= k < sourceEnd.value ==> !Delim(s, k)
      invariant lastFound == 0 || (Delim(s, lastFound) && lastFound + 3 <= i)
      invariant forall k :: lastFound < k && k + 3 <= i ==> !Delim(s, k)
    {
      MatchedNext(s, i);
      match s[i] {
        case ':' =>
          matched := 1;
        case '/' =>
          if matched == 1 {
            matched := 2;
          } else if matched == 2 {
            assert Delim(s, i - 2);
            if sourceEnd.None? {
              if labelStart.Some? {
                HashInSource(s, i - 2, pathEnd);
                return Err(InvalidSourceSyntax);
              }
              sourceEnd := Some(i - 2);
              pathStart := i + 1;
            }
            lastFound := i - 2;
            matched := 0;
          }
        case '#' =>
          pathEnd := i;
          labelStart := Some(i + 1);
          matched := 0;
        case _ =>
          matched := 0;
      }
    }
    AnswerIs(s, sourceEnd, labelStart, lastFound);
    if labelStart.Some? {
      if labelStart.value <= lastFound {
        return Err(InvalidLabelSyntax);
      }
    }
    if sourceEnd.Some? && sourceEnd.value == 0 {
      return Err(MissingSource);
    }
    if labelStart.Some? && labelStart.value == |s| {
      return Err(MissingLabel);
    }
    r := Ok(Parts(
      if sourceEnd.Some? then Some(s[..sourceEnd.value]) else None,
      s[pathStart..pathEnd],
      if labelStart.Some? then Some(s[labelStart.value..]) else None));
  }

  lemma HashInSource(s: string, d: nat, h: nat)
    requires Delim(s, d) && h < d && s[h] == '#' && forall k :: 0 <= k < d ==> !Delim(s, k)
    ensures Parse(s) == Err(InvalidSourceSyntax)
  {
    FirstDelimIs(s, d);
    assert s[..d][h] == '#';
  }

  /** What the code makes of its findings: the first `://`, the start of the label, the last `://`. */
  predicate Answers(s: string, sourceEnd: Option<nat>, labelStart: Option<nat>, lastFound: nat, r: ParseResult)
    requires sourceEnd.Some? ==> sourceEnd.value + 3 <= |s|
    requires labelStart.Some? ==> 0 < labelStart.value <= |s|
  {
    if labelStart.Some? && labelStart.value <= lastFound then r == Err(InvalidLabelSyntax)
    else if sourceEnd.Some? && sourceEnd.value == 0 then r == Err(MissingSource)
    else if labelStart.Some? && labelStart.value == |s| then r == Err(MissingLabel)
    else
      var start := if sourceEnd.Some? then sourceEnd.value + 3 else 0;
      var end := if labelStart.Some? then labelStart.value - 1 else |s|;
      start <= end && r == Ok(Parts(
        if sourceEnd.Some? then Some(s[..sourceEnd.value]) else None,
        s[start..end],
        if labelStart.Some? then Some(s[labelStart.value..]) else None))
  }

  lemma AnswerIs(s: string, sourceEnd: Option<nat>, labelStart: Option<nat>, lastFound: nat)
    requires sourceEnd.None? ==> forall k :: 0 <= k && k + 3 <= |s| ==> !Delim(s, k)
    requires sourceEnd.Some? ==> Delim(s, sourceEnd.value) && '#' !in s[..sourceEnd.value]
                                 && forall k :: 0 <= k < sourceEnd.value ==> !Delim(s, k)
    requires labelStart.None? ==> forall k :: 0 <= k < |s| ==> s[k] != '#'
    requires labelStart.Some? ==> 0 < labelStart.value <= |s| && s[labelStart.value - 1] == '#'
                                  && forall k :: labelStart.value <= k < |s| ==> s[k] != '#'
    requires lastFound == 0 || (Delim(s, lastFound) && lastFound + 3 <= |s|)
    requires forall k :: lastFound < k && k + 3 <= |s| ==> !Delim(s, k)
    ensures Answers(s, sourceEnd, labelStart, lastFound, Parse(s))
  {
    hide FirstDelim, LastHash;
    EndOfLoop(s, sourceEnd, labelStart);
    assert sourceEnd.Some? && labelStart.Some? ==> s[labelStart.value - 1] !in s[..sourceEnd.value];
  }

  lemma FirstDelimIs(s: string, d: nat)
    requires Delim(s, d) && forall k :: 0 <= k < d ==> !Delim(s, k)
    ensures FirstDelim(s, 0) == Some(d)
  {
  }

  /** What the loop has found is the first `://` and the last `#` of the whole string. */
  lemma EndOfLoop(s: string, sourceEnd: Option<nat>, labelStart: Option<nat>)
    requires sourceEnd.None? ==> forall k :: 0 <= k && k + 3 <= |s| ==> !Delim(s, k)
    requires sourceEnd.Some? ==> Delim(s, sourceEnd.value) && forall k :: 0 <= k < sourceEnd.value ==> !Delim(s, k)
    requires labelStart.None? ==> forall k :: 0 <= k < |s| ==> s[k] != '#'
    requires labelStart.Some? ==> 0 < labelStart.value <= |s| && s[labelStart.value - 1] == '#'
                                  && forall k :: labelStart.value <= k < |s| ==> s[k] != '#'
    ensures FirstDelim(s, 0) == sourceEnd
    ensures LastHash(s, |s|) == if labelStart.Some? then Some(labelStart.value - 1) else None
  {
  }

  // ---------------------------------------------------------------------------
  // The errors

  /** A `#` stands before every `://` of a string that has one. */
  predicate HashInSourcePart(s: string) {
    exists i, j :: 0 <= i < j < |s| && s[i] == '#' && Delim(s, j) && forall k :: 0 <= k < i ==> !Delim(s, k)
  }

  /** A `://` stands behind every `#` of a string that has one. */
  predicate DelimInLabelPart(s: string) {
    exists i, j :: 0 <= i < j < |s| && s[i] == '#' && Delim(s, j) && forall k :: j < k < |s| ==> s[k] != '#'
  }

  /** Which strings are refused, and with which error. */
  lemma ErrorsMean(s: string)
    ensures Parse(s) == Err(InvalidSourceSyntax) <==> HashInSourcePart(s)
    ensures Parse(s) == Err(InvalidLabelSyntax) <==> !HashInSourcePart(s) && DelimInLabelPart(s)
    ensures Parse(s) == Err(MissingSource) <==> !HashInSourcePart(s) && !DelimInLabelPart(s) && Delim(s, 0)
    ensures Parse(s) == Err(MissingLabel)
            <==> !HashInSourcePart(s) && !DelimInLabelPart(s) && !Delim(s, 0) && s != "" && s[|s| - 1] == '#'
  {
    SourceErrorIs(s);
    LabelErrorIs(s);
  }

  lemma SourceErrorIs(s: string)
    ensures var d := FirstDelim(s, 0); (d.Some? && '#' in s[..d.value]) <==> HashInSourcePart(s)
  {
    var d := FirstDelim(s, 0);
    if d.Some? && '#' in s[..d.value] {
      var i :| 0 <= i < d.value && s[..d.value][i] == '#';
      assert s[i] == '#' && Delim(s, d.value);
    }
    if HashInSourcePart(s) {
      var i, j :| 0 <= i < j < |s| && s[i] == '#' && Delim(s, j) && forall k :: 0 <= k < i ==> !Delim(s, k);
      assert s[..d.value][i] == '#';
    }
  }

  lemma LabelErrorIs(s: string)
    ensures var h := LastHash(s, |s|);
            (h.Some? && FirstDelim(s, h.value + 1).Some?) <==> DelimInLabelPart(s)
  {
    var h := LastHash(s, |s|);
    if h.Some? && FirstDelim(s, h.value + 1).Some? {
      var j := FirstDelim(s, h.value + 1).value;
      assert s[h.value] == '#' && Delim(s, j);
    }
    if DelimInLabelPart(s) {
      var i, j :| 0 <= i < j < |s| && s[i] == '#' && Delim(s, j) && forall k :: j < k < |s| ==> s[k] != '#';
      assert h.Some? && h.value < j;
    }
  }
}
