/**
 Resolution of reference strings in voker-asset (`resolve_str`, `resolve_embed_str` in `path.rs`):
 the parser, the component view and resolution put together, and when the shortcut for strings that
 start with `#` agrees with parsing.
 */
module AssetPathStrings {
  import opened AssetPathText
  import opened AssetPathResolve
  import opened AssetPathComponents

  datatype ResolveResult = Resolved(path: AssetPath) | Failed(error: ParseError)

  /** A parsed triple as an asset path. */
  function PathOf(p: Parts): AssetPath {
    AssetPath(p.source, Components(p.path), p.subLabel)
  }

  predicate StartsWithHash(s: string) {
    s != "" && s[0] == '#'
  }

  /** What the documentation promises: parse, then resolve. */
  function ResolveParsed(base: AssetPath, s: string, replace: bool): ResolveResult {
    match Parse(s)
    case Err(e) => Failed(e)
    case Ok(p) => Resolved(if replace then ResolveEmbed(base, PathOf(p)) else Resolve(base, PathOf(p)))
  }

  /** What the code does: behind a leading `#` everything is the label. */
  function ResolveString(base: AssetPath, s: string, replace: bool): ResolveResult {
    if StartsWithHash(s) then Resolved(base.(subLabel := Some(s[1..]))) else ResolveParsed(base, s, replace)
  }

  /** Only the empty text has no components and no root. */
  lemma EmptyTextIsEmpty(t: string)
    ensures EmptyText(Components(t)) <==> t == ""
  {
    hide SegsOf, Pieces;
    if t == "" {
      PiecesOfOne("");
      SegsOfNothing();
    } else if t[0] != '/' {
      FirstPiece(t);
      if Pieces(t)[0] != "." {
        FirstPieceIsKept(Pieces(t));
      }
    }
  }

  lemma FirstPiece(t: string)
    requires t != "" && t[0] != '/'
    ensures Pieces(t)[0] != ""
  {
  }

  lemma FirstPieceIsKept(pieces: seq<string>)
    requires pieces != [] && pieces[0] != "" && pieces[0] != "."
    ensures SegsOf(pieces) != []
  {
  }

  /** A string that does not start with `#` never parses to a bare label. */
  lemma BareLabelsStartWithHash(s: string, p: Parts)
    requires Parse(s) == Ok(p) && LabelOnly(PathOf(p))
    ensures s == "#" + p.subLabel.value
  {
    hide Parse, Components;
    ParseAndPrintAreInverse(s, p);
    EmptyTextIsEmpty(p.path);
  }

  /** `resolve_internal`. */
  method ResolveInternal(base: AssetPath, s: string, replace: bool) returns (r: ResolveResult)
    ensures r == ResolveString(base, s, replace)
  {
    if s != "" && s[0] == '#' {
      return Resolved(base.(subLabel := Some(s[1..])));
    }
    var parsed := ParseInternal(s);
    if parsed.Err? {
      return Failed(parsed.error);
    }
    var p := parsed.parts;
    if LabelOnly(PathOf(p)) {
      BareLabelsStartWithHash(s, p);
    }
    var path := ResolveFromParts(base, replace, p.source, Components(p.path), p.subLabel);
    r := Resolved(path);
  }

  /** Resolution takes the label of the reference. */
  lemma LabelIsTheReferences(base: AssetPath, p: Parts)
    ensures Resolve(base, PathOf(p)).subLabel == ResolveEmbed(base, PathOf(p)).subLabel == p.subLabel
  {
    hide Components, Normalize;
  }

  lemma ParsedBehindHash(s: string, p: Parts)
    requires StartsWithHash(s) && Parse(s) == Ok(p)
    ensures p.subLabel == Some(s[1..]) <==> p == Parts(None, "", Some(s[1..]))
  {
    hide Parse, HasDelim;
    ParseAndPrintAreInverse(s, p);
    if p.subLabel == Some(s[1..]) {
      assert |Print(p)| == |s|;
    }
  }

  lemma BareLabelParses(s: string)
    requires StartsWithHash(s)
    ensures Parse(s) == Ok(Parts(None, "", Some(s[1..]))) <==> WellFormed(Parts(None, "", Some(s[1..])))
  {
    hide Parse, WellFormed;
    var p := Parts(None, "", Some(s[1..]));
    ParseAndPrintAreInverse(s, p);
    assert Print(p) == s;
  }

  /**
   Resolving a string is parsing it and resolving the result, except behind a leading `#`: there the
   rest is taken as the label unread, which agrees exactly when it is a label the parser accepts, not
   empty and without `#` or `://`.
   */
  lemma ResolvingAStringIsParsing(base: AssetPath, s: string, replace: bool)
    ensures ResolveString(base, s, replace) == ResolveParsed(base, s, replace)
            <==> (StartsWithHash(s) ==> s != "#" && '#' !in s[1..] && !HasDelim(s[1..]))
  {
    hide Parse, Components, Normalize, HasDelim;
    if StartsWithHash(s) {
      var p := Parts(None, "", Some(s[1..]));
      BareLabelParses(s);
      EmptyTextIsEmpty("");
      EmptyHasNoDelim();
      if Parse(s).Ok? {
        ParsedBehindHash(s, Parse(s).parts);
        LabelIsTheReferences(base, Parse(s).parts);
      }
    }
  }

  lemma EmptyHasNoDelim()
    ensures !HasDelim("")
  {
  }

  lemma DelimBehindDotSlash(t: string)
    ensures HasDelim("./" + t) <==> HasDelim(t)
  {
    if HasDelim(t) {
      var i :| 0 <= i < |t| && Delim(t, i);
      assert Delim("./" + t, i + 2);
    }
    if HasDelim("./" + t) {
      var i :| 0 <= i < |"./" + t| && Delim("./" + t, i);
      assert Delim(t, i - 2);
    }
  }

  /** A reference string `./t` without source resolves as `t` does, if and only if `t` does not start with `#`. */
  lemma DotSlashString(base: AssetPath, t: string, p: Parts, replace: bool)
    requires Parse(t) == Ok(p) && p.source.None? && p.path != "" && !StartsWithSlash(p.path)
    ensures ResolveString(base, "./" + t, replace) == ResolveString(base, t, replace) <==> !StartsWithHash(t)
  {
    hide Parse, Components, HasDelim, Resolve, ResolveEmbed;
    var q := p.(path := "./" + p.path);
    ParseAndPrintAreInverse(t, p);
    DelimBehindDotSlash(p.path);
    assert Print(q) == "./" + t;
    ParseAndPrintAreInverse("./" + t, q);
    DotSlashIsNothing(base, p.path, p.subLabel);
    if StartsWithHash(t) {
      LabelIsTheReferences(base, q);
      assert |Print(p)| == |t|;
    }
  }

  /** The base of an embedded resolution: the last component goes unless the text ends in a slash. */
  function BaseFolder(base: AssetPath): AssetPath {
    if base.path.trailing || base.path.segs == [] then base
    else base.(path := base.path.(segs := base.path.segs[..|base.path.segs| - 1]))
  }

  /** Resolving a string in embedded mode is resolving it against the folder of the base. */
  lemma EmbeddedStringsUseTheFolder(base: AssetPath, s: string)
    requires !StartsWithHash(s)
    ensures ResolveString(base, s, true) == ResolveString(BaseFolder(base), s, false)
  {
    hide Parse, Components, Normalize;
    if Parse(s).Ok? && LabelOnly(PathOf(Parse(s).parts)) {
      BareLabelsStartWithHash(s, Parse(s).parts);
    }
  }
}
