/**
 Model of path normalisation, `is_unapproved` and reference resolution of voker-asset
 (`utils.rs`, `path.rs`), on the components of Unix paths.

 A path means a walk through directories; normalisation is proved to be the canonical form of
 that meaning, and resolution to compose.
 */
module AssetPathResolve {
  import opened AssetPathText

  /** A component other than the root. */
  datatype Seg = Cur | Parent | Name(name: string)

  /** Components of a path; `trailing` records that its text ends in a slash. */
  datatype Path = Path(rooted: bool, segs: seq<Seg>, trailing: bool)

  // ---------------------------------------------------------------------------
  // Normalisation

  /** One component pushed on the result: `..` removes a preceding name, if there is one. */
  function Push(stack: seq<Seg>, x: Seg): seq<Seg> {
    match x
    case Cur => stack
    case Parent => if stack != [] && stack[|stack| - 1].Name? then stack[..|stack| - 1] else stack + [Parent]
    case Name(_) => stack + [x]
  }

  function Normalize(s: seq<Seg>): seq<Seg> {
    if s == [] then [] else Push(Normalize(s[..|s| - 1]), s[|s| - 1])
  }

  /** `normalize_path`. */
  method NormalizePath(p: Path) returns (result: Path)
    ensures result == Path(p.rooted, Normalize(p.segs), p.rooted && Normalize(p.segs) == [])
  {
    var rooted := p.rooted;
    var stack: seq<Seg> := [];
    for i := 0 to |p.segs|
      invariant stack == Normalize(p.segs[..i])
    {
      assert p.segs[..i + 1][..i] == p.segs[..i];
      var elt := p.segs[i];
      if elt == Cur {
      } else if elt == Parent {
        if stack != [] && stack[|stack| - 1].Name? {
          stack := stack[..|stack| - 1];
        } else {
          stack := stack + [elt];
        }
      } else {
        stack := stack + [elt];
      }
    }
    assert p.segs[..|p.segs|] == p.segs;
    result := Path(rooted, stack, rooted && stack == []);
  }

  // ---------------------------------------------------------------------------
  // What a path means

  /** One step from directory `d`, given by the names leading to it; the top has no parent. */
  function Go(d: seq<string>, x: Seg): Option<seq<string>> {
    match x
    case Cur => Some(d)
    case Parent => if d == [] then None else Some(d[..|d| - 1])
    case Name(n) => Some(d + [n])
  }

  function Walk(d: seq<string>, s: seq<Seg>): Option<seq<string>> {
    if s == [] then Some(d)
    else
      match Walk(d, s[..|s| - 1])
      case None => None
      case Some(e) => Go(e, s[|s| - 1])
  }

  function Then(at: Option<seq<string>>, s: seq<Seg>): Option<seq<string>> {
    if at.None? then None else Walk(at.value, s)
  }

  lemma {:induction false} WalkAppend(d: seq<string>, a: seq<Seg>, b: seq<Seg>)
    ensures Walk(d, a + b) == Then(Walk(d, a), b)
  {
    if b == [] {
      assert a + b == a;
    } else {
      WalkAppend(d, a, b[..|b| - 1]);
      assert (a + b)[..|a + b| - 1] == a + b[..|b| - 1];
    }
  }

  lemma WalkPush(d: seq<string>, stack: seq<Seg>, x: Seg)
    ensures Walk(d, Push(stack, x)) == Then(Walk(d, stack), [x])
  {
    assert [x][..0] == [];
    WalkAppend(d, stack, [x]);
    if x.Parent? && stack != [] && stack[|stack| - 1].Name? {
      var at := Walk(d, stack[..|stack| - 1]);
      if at.Some? {
        var e := at.value + [stack[|stack| - 1].name];
        assert e[..|e| - 1] == at.value;
      }
    }
  }

  /** Normalising changes no walk, not even one that fails. */
  lemma {:induction false} NormalizeKeepsMeaning(d: seq<string>, s: seq<Seg>)
    ensures Walk(d, Normalize(s)) == Walk(d, s)
  {
    if s != [] {
      NormalizeKeepsMeaning(d, s[..|s| - 1]);
      WalkPush(d, Normalize(s[..|s| - 1]), s[|s| - 1]);
      assert [s[|s| - 1]][..0] == [];
    }
  }

  // ---------------------------------------------------------------------------
  // The canonical form

  /** `k` times `..`. */
  function Ups(k: nat): seq<Seg> {
    seq(k, _ => Parent)
  }

  function Names(ns: seq<string>): seq<Seg> {
    seq(|ns|, i requires 0 <= i < |ns| => Name(ns[i]))
  }

  /** Some `..` followed by names only. */
  function Canonical(k: nat, ns: seq<string>): seq<Seg> {
    Ups(k) + Names(ns)
  }

  /** The number of leading `..` of the normal form. */
  function UpCount(s: seq<Seg>): nat {
    if s == [] then 0
    else
      var n := Normalize(s[..|s| - 1]);
      UpCount(s[..|s| - 1]) + if s[|s| - 1].Parent? && !(n != [] && n[|n| - 1].Name?) then 1 else 0
  }

  /** The names of the normal form. */
  function NameList(s: seq<Seg>): seq<string> {
    if s == [] then []
    else
      var ns := NameList(s[..|s| - 1]);
      match s[|s| - 1]
      case Cur => ns
      case Parent => if ns == [] then [] else ns[..|ns| - 1]
      case Name(n) => ns + [n]
  }

  lemma PushOnCanonical(k: nat, ns: seq<string>, x: Seg)
    ensures Push(Canonical(k, ns), x) ==
            match x
            case Cur => Canonical(k, ns)
            case Parent => if ns == [] then Canonical(k + 1, ns) else Canonical(k, ns[..|ns| - 1])
            case Name(n) => Canonical(k, ns + [n])
    ensures (Canonical(k, ns) != [] && Canonical(k, ns)[|Canonical(k, ns)| - 1].Name?) <==> ns != []
  {
    var c := Canonical(k, ns);
    match x
    case Cur =>
    case Parent =>
      if ns == [] {
        assert c + [Parent] == Canonical(k + 1, ns);
      } else {
        assert c[..|c| - 1] == Canonical(k, ns[..|ns| - 1]);
      }
    case Name(n) => assert c + [x] == Canonical(k, ns + [n]);
  }

  /** The normal form is some `..` followed only by ordinary names. */
  lemma {:induction false} NormalizeIsCanonical(s: seq<Seg>)
    ensures Normalize(s) == Canonical(UpCount(s), NameList(s))
  {
    if s != [] {
      NormalizeIsCanonical(s[..|s| - 1]);
      PushOnCanonical(UpCount(s[..|s| - 1]), NameList(s[..|s| - 1]), s[|s| - 1]);
    }
  }

  lemma {:induction false} WalkUps(d: seq<string>, k: nat)
    ensures Walk(d, Ups(k)) == if k <= |d| then Some(d[..|d| - k]) else None
  {
    if k == 0 {
      assert d[..|d|] == d;
    } else {
      WalkUps(d, k - 1);
      assert Ups(k)[..k - 1] == Ups(k - 1);
      if k <= |d| {
        var e := d[..|d| - (k - 1)];
        assert e[..|e| - 1] == d[..|d| - k];
      }
    }
  }

  lemma {:induction false} WalkNames(d: seq<string>, ns: seq<string>)
    ensures Walk(d, Names(ns)) == Some(d + ns)
  {
    if ns == [] {
      assert d + ns == d;
    } else {
      WalkNames(d, ns[..|ns| - 1]);
      assert Names(ns)[..|ns| - 1] == Names(ns[..|ns| - 1]);
      assert d + ns == d + ns[..|ns| - 1] + [ns[|ns| - 1]];
    }
  }

  lemma WalkCanonical(d: seq<string>, k: nat, ns: seq<string>)
    ensures Walk(d, Canonical(k, ns)) == if k <= |d| then Some(d[..|d| - k] + ns) else None
  {
    WalkAppend(d, Ups(k), Names(ns));
    WalkUps(d, k);
    if k <= |d| { WalkNames(d[..|d| - k], ns); }
  }

  /** Canonical forms with the same meaning are the same. */
  lemma CanonicalIsDetermined(k: nat, ns: seq<string>, k': nat, ns': seq<string>)
    requires forall d :: Walk(d, Canonical(k, ns)) == Walk(d, Canonical(k', ns'))
    ensures k == k' && ns == ns'
  {
    var d, d' := seq(k, _ => ""), seq(k', _ => "");
    WalkCanonical(d, k, ns);
    WalkCanonical(d, k', ns');
    WalkCanonical(d', k, ns);
    WalkCanonical(d', k', ns');
    assert k <= k' && k' <= k;
    assert d[..|d| - k] + ns == ns && d[..|d| - k'] + ns' == ns';
  }

  /** The two paths lead to the same place from every directory, or fail together. */
  ghost predicate SameMeaning(a: seq<Seg>, b: seq<Seg>) {
    forall d :: Walk(d, a) == Walk(d, b)
  }

  lemma SameMeaningSameNormalForm(a: seq<Seg>, b: seq<Seg>)
    requires SameMeaning(a, b)
    ensures Normalize(a) == Normalize(b)
  {
    NormalizeIsCanonical(a);
    NormalizeIsCanonical(b);
    forall d ensures Walk(d, Canonical(UpCount(a), NameList(a))) == Walk(d, Canonical(UpCount(b), NameList(b))) {
      NormalizeKeepsMeaning(d, a);
      NormalizeKeepsMeaning(d, b);
      assert Walk(d, a) == Walk(d, b);
    }
    CanonicalIsDetermined(UpCount(a), NameList(a), UpCount(b), NameList(b));
  }

  /**
   Full abstraction: two paths have the same normal form exactly when they lead to the same
   place from every directory.
   */
  lemma SameNormalFormIffSameMeaning(a: seq<Seg>, b: seq<Seg>)
    ensures Normalize(a) == Normalize(b) <==> SameMeaning(a, b)
  {
    if Normalize(a) == Normalize(b) {
      forall d ensures Walk(d, a) == Walk(d, b) {
        NormalizeKeepsMeaning(d, a);
        NormalizeKeepsMeaning(d, b);
      }
    } else if SameMeaning(a, b) {
      SameMeaningSameNormalForm(a, b);
    }
  }

  lemma NormalizeIsIdempotent(s: seq<Seg>)
    ensures Normalize(Normalize(s)) == Normalize(s)
  {
    forall d ensures Walk(d, Normalize(s)) == Walk(d, s) { NormalizeKeepsMeaning(d, s); }
    SameMeaningSameNormalForm(Normalize(s), s);
  }

  /** Normalising a concatenation may normalise the pieces first. */
  lemma NormalizeOfPieces(a: seq<Seg>, b: seq<Seg>)
    ensures Normalize(a + b) == Normalize(Normalize(a) + Normalize(b))
  {
    forall d ensures Walk(d, a + b) == Walk(d, Normalize(a) + Normalize(b)) {
      WalkAppend(d, a, b);
      WalkAppend(d, Normalize(a), Normalize(b));
      NormalizeKeepsMeaning(d, a);
      if Walk(d, a).Some? { NormalizeKeepsMeaning(Walk(d, a).value, b); }
    }
    SameMeaningSameNormalForm(a + b, Normalize(a) + Normalize(b));
  }

  // ---------------------------------------------------------------------------
  // Leaving the source folder

  /** `..` minus names. */
  function Excess(s: seq<Seg>): int {
    if s == [] then 0
    else
      Excess(s[..|s| - 1]) +
      match s[|s| - 1] case Cur => 0 case Parent => 1 case Name(_) => -1
  }

  /** The largest excess of `..` over names in any prefix, at least 0. */
  function MaxExcess(s: seq<Seg>): nat {
    if s == [] then 0
    else
      var before := MaxExcess(s[..|s| - 1]);
      if Excess(s) > before then Excess(s) else before
  }

  /** The leading `..` of the normal form count the largest excess. */
  lemma {:induction false} UpCountIsMaxExcess(s: seq<Seg>)
    ensures UpCount(s) == MaxExcess(s)
    ensures UpCount(s) - |NameList(s)| == Excess(s)
  {
    if s != [] {
      var t := s[..|s| - 1];
      UpCountIsMaxExcess(t);
      NormalizeIsCanonical(t);
      PushOnCanonical(UpCount(t), NameList(t), s[|s| - 1]);
    }
  }

  /** `is_unapproved`. */
  method IsUnapproved(p: Path) returns (r: bool)
    ensures r <==> p.rooted || MaxExcess(p.segs) > 0
  {
    if p.rooted {
      return true;
    }
    var simplified: seq<Seg> := [];
    for i := 0 to |p.segs|
      invariant MaxExcess(p.segs[..i]) == 0
      invariant |simplified| == -Excess(p.segs[..i])
    {
      assert p.segs[..i + 1][..i] == p.segs[..i];
      match p.segs[i] {
        case Cur =>
        case Parent =>
          if simplified == [] {
            ExcessIsMonotone(p.segs, i + 1);
            return true;
          }
          simplified := simplified[..|simplified| - 1];
        case Name(_) => simplified := simplified + [p.segs[i]];
      }
    }
    assert p.segs[..|p.segs|] == p.segs;
    r := false;
  }

  lemma {:induction false} ExcessIsMonotone(s: seq<Seg>, i: nat)
    requires i <= |s|
    ensures MaxExcess(s[..i]) <= MaxExcess(s)
  {
    if i < |s| {
      ExcessIsMonotone(s[..|s| - 1], i);
      assert s[..|s| - 1][..i] == s[..i];
    } else {
      assert s[..i] == s;
    }
  }

  /** Unapproved relative paths are those whose normal form climbs, and those that lead out of the root folder. */
  lemma UnapprovedMeansLeavingTheFolder(s: seq<Seg>)
    ensures MaxExcess(s) > 0 <==> UpCount(s) > 0
    ensures MaxExcess(s) > 0 <==> Walk([], s).None?
    ensures MaxExcess(s) > 0 <==> Normalize(s) != [] && Normalize(s)[0] == Parent
  {
    UpCountIsMaxExcess(s);
    NormalizeKeepsMeaning([], s);
    NormalizeIsCanonical(s);
    WalkCanonical([], UpCount(s), NameList(s));
  }

  // ---------------------------------------------------------------------------
  // Resolution

  datatype AssetPath = AssetPath(source: Option<string>, path: Path, subLabel: Option<string>)

  predicate EmptyText(p: Path) {
    !p.rooted && p.segs == []
  }

  predicate LabelOnly(r: AssetPath) {
    r.source.None? && EmptyText(r.path) && r.subLabel.Some?
  }

  /** `PathBuf::pop`. */
  function Popped(p: Path): Path {
    if p.segs == [] then p
    else
      var segs := p.segs[..|p.segs| - 1];
      Path(p.rooted, segs, p.rooted && segs == [])
  }

  /** The path of a resolved reference: rooted and sourced references do not use the base. */
  function ResolvedPath(base: Path, source: Option<string>, rpath: Path): Path {
    var under := !rpath.rooted && source.None?;
    var segs := Normalize((if under then base.segs else []) + rpath.segs);
    Path(under && base.rooted, segs, under && base.rooted && segs == [])
  }

  function Resolve(base: AssetPath, r: AssetPath): AssetPath {
    if LabelOnly(r) then base.(subLabel := r.subLabel)
    else
      AssetPath(if r.source.Some? then r.source else base.source, ResolvedPath(base.path, r.source, r.path), r.subLabel)
  }

  /** Resolution relative to the folder of the base (RFC 1808): its last component is dropped first. */
  function ResolveEmbed(base: AssetPath, r: AssetPath): AssetPath {
    if LabelOnly(r) then base.(subLabel := r.subLabel)
    else Resolve(InFolder(base), r)
  }

  /** The folder a base stands for: itself if it ends in a slash, else without its last component. */
  function Folder(p: Path): Path {
    if p.trailing then p else Popped(p)
  }

  function InFolder(base: AssetPath): AssetPath {
    base.(path := Folder(base.path))
  }

  /** `resolve_from_parts`, for both `resolve` (`replace` false) and `resolve_embed`. */
  method ResolveFromParts(base: AssetPath, replace: bool, source: Option<string>, rpath: Path, rlabel: Option<string>)
    returns (result: AssetPath)
    requires !LabelOnly(AssetPath(source, rpath, rlabel))
    ensures var r := AssetPath(source, rpath, rlabel);
            result == if replace then ResolveEmbed(base, r) else Resolve(base, r)
  {
    var basePath := base.path;
    if replace && !base.path.trailing {
      basePath := Popped(basePath);
    }
    var isAbsolute := rpath.rooted;
    var resultPath := if !isAbsolute && source.None? then basePath else Path(false, [], false);
    resultPath := Path(resultPath.rooted, resultPath.segs + rpath.segs, false);
    resultPath := NormalizePath(resultPath);
    result := AssetPath(if source.Some? then source else base.source, resultPath, rlabel);
  }

  /** Equality of asset paths: paths are compared by components. */
  predicate Same(a: AssetPath, b: AssetPath) {
    a.source == b.source && a.path.rooted == b.path.rooted && a.path.segs == b.path.segs && a.subLabel == b.subLabel
  }

  predicate IsNormal(p: Path) {
    Normalize(p.segs) == p.segs
  }

  /** The second reference starts over at the root of a source that neither reference names. */
  predicate StartsOver(r1: AssetPath, r2: AssetPath) {
    r2.path.rooted && r2.source.None? && r1.source.None?
  }

  /** Normalisation may be put off inside a concatenation. */
  lemma NormalizeInside(a: seq<Seg>, b: seq<Seg>)
    ensures Normalize(Normalize(a) + b) == Normalize(a + b)
    ensures Normalize(a + Normalize(b)) == Normalize(a + b)
  {
    NormalizeIsIdempotent(a);
    NormalizeIsIdempotent(b);
    NormalizeOfPieces(a, b);
    NormalizeOfPieces(Normalize(a), b);
    NormalizeOfPieces(a, Normalize(b));
  }

  /** Joining and normalising is associative, with the empty path as unit. */
  lemma JoinIsAssociative(a: seq<Seg>, b: seq<Seg>, c: seq<Seg>)
    ensures Normalize(Normalize(a + b) + c) == Normalize(a + Normalize(b + c))
  {
    hide Normalize;
    NormalizeInside(a + b, c);
    NormalizeInside(a, b + c);
    assert a + b + c == a + (b + c);
  }

  lemma JoinUnits(a: seq<Seg>)
    ensures Normalize([] + a) == Normalize(a) == Normalize(a + [])
    ensures Normalize([] + Normalize(a)) == Normalize(a)
  {
    NormalizeIsIdempotent(a);
    assert [] + a == a && a + [] == a && [] + Normalize(a) == Normalize(a);
  }

  lemma ComposesBelowTheBase(b: AssetPath, r1: AssetPath, r2: AssetPath)
    requires r2.source.None? && !r2.path.rooted && r1.source.None? && !r1.path.rooted
    requires !LabelOnly(r1) && !LabelOnly(r2) && !LabelOnly(Resolve(r1, r2))
    ensures Same(Resolve(Resolve(b, r1), r2), Resolve(b, Resolve(r1, r2)))
  {
    hide Normalize;
    JoinIsAssociative(b.path.segs, r1.path.segs, r2.path.segs);
  }

  lemma ComposesAwayFromTheBase(b: AssetPath, r1: AssetPath, r2: AssetPath)
    requires !StartsOver(r1, r2) && !LabelOnly(r1) && !LabelOnly(r2)
    requires r2.source.Some? || r1.source.Some? || r1.path.rooted
    ensures Same(Resolve(Resolve(b, r1), r2), Resolve(b, Resolve(r1, r2)))
  {
    hide Normalize;
    JoinIsAssociative([], r1.path.segs, r2.path.segs);
    JoinUnits(r1.path.segs);
    JoinUnits(r2.path.segs);
    JoinUnits(r1.path.segs + r2.path.segs);
  }

  lemma ComposesWithALabel(b: AssetPath, r1: AssetPath, r2: AssetPath)
    requires !StartsOver(r1, r2) && (LabelOnly(r1) || LabelOnly(r2)) && !LabelOnly(Resolve(r1, r2))
    ensures Same(Resolve(Resolve(b, r1), r2), Resolve(b, Resolve(r1, r2)))
  {
    hide Normalize;
    JoinUnits(r2.path.segs);
    NormalizeInside(b.path.segs, r2.path.segs);
  }

  /** When the references cancel to a bare label, one side keeps the base as it is and the other normalises it. */
  lemma CancellingShowsTheBase(b: AssetPath, r1: AssetPath, r2: AssetPath)
    requires !StartsOver(r1, r2) && LabelOnly(Resolve(r1, r2))
    ensures Same(Resolve(Resolve(b, r1), r2), Resolve(b, Resolve(r1, r2)))
            <==> IsNormal(b.path) || (LabelOnly(r1) && LabelOnly(r2))
  {
    hide Normalize;
    JoinUnits(b.path.segs);
    JoinUnits(r2.path.segs);
    NormalizeInside(b.path.segs, r2.path.segs);
    JoinIsAssociative(b.path.segs, r1.path.segs, r2.path.segs);
  }

  /**
   Exactly when resolving composes, for every base and every two references of which the second does
   not start over: resolving `r1` and then `r2` is resolving what `r1` makes of `r2`, unless the two
   cancel to a bare label over a base that is not normalised.
   */
  lemma ResolveComposes(b: AssetPath, r1: AssetPath, r2: AssetPath)
    requires !StartsOver(r1, r2)
    ensures Same(Resolve(Resolve(b, r1), r2), Resolve(b, Resolve(r1, r2)))
            <==> IsNormal(b.path) || !LabelOnly(Resolve(r1, r2)) || (LabelOnly(r1) && LabelOnly(r2))
  {
    hide Normalize, Resolve, Same;
    if LabelOnly(Resolve(r1, r2)) {
      CancellingShowsTheBase(b, r1, r2);
    } else if LabelOnly(r1) || LabelOnly(r2) {
      ComposesWithALabel(b, r1, r2);
    } else if r2.source.Some? || r1.source.Some? || r1.path.rooted {
      ComposesAwayFromTheBase(b, r1, r2);
    } else {
      ComposesBelowTheBase(b, r1, r2);
    }
  }

  /** A canonical form joined to another: `..` of the second use up names of the first. */
  lemma JoinCanonical(j: nat, ms: seq<string>, k: nat, ns: seq<string>)
    ensures Normalize(Canonical(j, ms) + Canonical(k, ns)) ==
            if k <= |ms| then Canonical(j, ms[..|ms| - k] + ns) else Canonical(j + k - |ms|, ns)
  {
    hide Normalize;
    var joined := Canonical(j, ms) + Canonical(k, ns);
    var k', ns' := if k <= |ms| then j else j + k - |ms|, if k <= |ms| then ms[..|ms| - k] + ns else ns;
    forall d ensures Walk(d, joined) == Walk(d, Canonical(k', ns')) {
      WalkAppend(d, Canonical(j, ms), Canonical(k, ns));
      WalkCanonical(d, j, ms);
      WalkCanonical(d, k', ns');
      if j <= |d| {
        var e := d[..|d| - j] + ms;
        WalkCanonical(e, k, ns);
        if k <= |e| {
          if k <= |ms| {
            assert e[..|e| - k] + ns == d[..|d| - j] + (ms[..|ms| - k] + ns);
          } else {
            assert e[..|e| - k] == d[..|d| - k'];
          }
        }
      }
    }
    SameMeaningSameNormalForm(joined, Canonical(k', ns'));
    CanonicalIsNormal(k', ns');
  }

  lemma CanonicalIsNormal(k: nat, ns: seq<string>)
    ensures Normalize(Canonical(k, ns)) == Canonical(k, ns)
    ensures UpCount(Canonical(k, ns)) == k && NameList(Canonical(k, ns)) == ns
  {
    hide Normalize, UpCount, NameList;
    var c := Canonical(k, ns);
    NormalizeIsCanonical(c);
    forall d ensures Walk(d, c) == Walk(d, Canonical(UpCount(c), NameList(c))) {
      NormalizeKeepsMeaning(d, c);
    }
    CanonicalIsDetermined(k, ns, UpCount(c), NameList(c));
  }

  lemma CanonicalIsInjective(k: nat, ns: seq<string>, k': nat, ns': seq<string>)
    requires Canonical(k, ns) == Canonical(k', ns')
    ensures k == k' && ns == ns'
  {
    CanonicalIsNormal(k, ns);
    CanonicalIsNormal(k', ns');
  }

  /** The base disappears under the reference: as many `..` as names, all used up by the reference. */
  predicate Absorbed(base: Path, r: Path) {
    !base.rooted && UpCount(base.segs) == |NameList(base.segs)| <= UpCount(r.segs)
  }

  lemma AbsorbedIffUnchanged(p: seq<Seg>, q: seq<Seg>)
    ensures Normalize(p + Normalize(q)) == Normalize(q)
            <==> UpCount(p) == |NameList(p)| <= UpCount(q)
  {
    hide Normalize, UpCount, NameList, Canonical;
    var j, ms, k, ns := UpCount(p), NameList(p), UpCount(q), NameList(q);
    NormalizeIsCanonical(p);
    NormalizeIsCanonical(q);
    NormalizeIsIdempotent(q);
    NormalizeOfPieces(p, Normalize(q));
    JoinCanonical(j, ms, k, ns);
    assert ms[..0] + ns == ns;
    if Normalize(p + Normalize(q)) == Normalize(q) {
      if k <= |ms| {
        CanonicalIsInjective(j, ms[..|ms| - k] + ns, k, ns);
        assert |ms[..|ms| - k] + ns| == |ns|;
      } else {
        CanonicalIsInjective(j + k - |ms|, ns, k, ns);
      }
    }
  }

  /**
   Exactly when resolving composes if the second reference starts over at the root, for every base:
   the intermediate result has lost its root, so the base must disappear under it, or be empty when
   only a label is left.
   */
  lemma StartingOverComposesIffAbsorbed(b: AssetPath, r1: AssetPath, r2: AssetPath)
    requires StartsOver(r1, r2)
    ensures Same(Resolve(Resolve(b, r1), r2), Resolve(b, Resolve(r1, r2)))
            <==> if LabelOnly(Resolve(r1, r2)) then EmptyText(b.path) else Absorbed(b.path, r2.path)
  {
    hide Normalize, UpCount, NameList;
    JoinUnits(r2.path.segs);
    AbsorbedIffUnchanged(b.path.segs, r2.path.segs);
  }

  /** An input for which an unnormalised base shows: `a/..`, then `x`, then `..#l`. */
  lemma UnnormalisedBaseDoesNotCompose()
    ensures var b := AssetPath(None, Path(false, [Name("a"), Parent], false), None);
            var r1 := AssetPath(None, Path(false, [Name("x")], false), None);
            var r2 := AssetPath(None, Path(false, [Parent], false), Some("l"));
            !Same(Resolve(Resolve(b, r1), r2), Resolve(b, Resolve(r1, r2)))
  {
    var b := AssetPath(None, Path(false, [Name("a"), Parent], false), None);
    var r1 := AssetPath(None, Path(false, [Name("x")], false), None);
    var r2 := AssetPath(None, Path(false, [Parent], false), Some("l"));
    JoinCanonical(0, ["x"], 1, []);
    assert Canonical(0, ["x"]) == r1.path.segs && Canonical(1, []) == r2.path.segs;
    assert ["x"][..0] + [] == [] && Canonical(0, []) == [];
    assert LabelOnly(Resolve(r1, r2));
    var s := Resolve(b, r1).path.segs + r2.path.segs;
    NormalFormHasNoNameBeforeParent(s);
    assert Resolve(Resolve(b, r1), r2).path.segs == Normalize(s);
    assert Resolve(b, Resolve(r1, r2)).path.segs == b.path.segs;
  }

  lemma NormalFormHasNoNameBeforeParent(s: seq<Seg>)
    ensures |Normalize(s)| > 1 && Normalize(s)[1] == Parent ==> Normalize(s)[0] == Parent
  {
    NormalizeIsCanonical(s);
  }

  // ---------------------------------------------------------------------------
  // Embedded resolution

  predicate EndsInAName(p: Path) {
    p.segs != [] && p.segs[|p.segs| - 1].Name?
  }

  /** A name at the end stays at the end, and dropping it is normalising what comes before. */
  lemma NameAtTheEnd(a: seq<Seg>, r: seq<Seg>)
    requires r != [] && r[|r| - 1].Name?
    ensures Normalize(a + r) == Normalize(a + r[..|r| - 1]) + [r[|r| - 1]]
  {
    assert (a + r)[..|a + r| - 1] == a + r[..|r| - 1];
  }

  /** A reference to a file in its folder, with the label put aside. */
  function FolderOf(r: AssetPath): AssetPath {
    InFolder(r).(subLabel := None)
  }

  /** The folder of a resolved file is the folder resolved. */
  lemma FolderOfResolved(b: AssetPath, r: AssetPath)
    requires EndsInAName(r.path) && !r.path.trailing
    ensures var x, y := Resolve(b, r), Resolve(b, FolderOf(r));
            InFolder(x).source == y.source && InFolder(x).path.rooted == y.path.rooted && InFolder(x).path.segs == y.path.segs
  {
    hide Normalize;
    NameAtTheEnd(if !r.path.rooted && r.source.None? then b.path.segs else [], r.path.segs);
  }

  /** Resolving looks at no more of its base than source, root and components. */
  lemma ResolvedFrom(x: AssetPath, y: AssetPath, r: AssetPath)
    requires x.source == y.source && x.path.rooted == y.path.rooted && x.path.segs == y.path.segs && !LabelOnly(r)
    ensures Resolve(x, r) == Resolve(y, r)
  {
  }

  /** Two references of which the first names a file, over the folder of the base. */
  lemma EmbeddedTwice(b: AssetPath, r1: AssetPath, r2: AssetPath)
    requires EndsInAName(r1.path) && !r1.path.trailing && !LabelOnly(r2)
    ensures ResolveEmbed(ResolveEmbed(b, r1), r2) == Resolve(Resolve(InFolder(b), FolderOf(r1)), r2)
    ensures ResolveEmbed(r1, r2) == Resolve(FolderOf(r1), r2)
  {
    hide Normalize, Resolve;
    FolderOfResolved(InFolder(b), r1);
    ResolvedFrom(InFolder(Resolve(InFolder(b), r1)), Resolve(InFolder(b), FolderOf(r1)), r2);
    ResolvedFrom(InFolder(r1), FolderOf(r1), r2);
  }

  /** References that cancel to a bare label lead back to the folder of the base. */
  lemma CancellingLeadsToTheFolder(b: AssetPath, r1: AssetPath, r2: AssetPath)
    requires !StartsOver(r1, r2) && !LabelOnly(r1) && !LabelOnly(r2) && LabelOnly(Resolve(r1, r2))
    ensures var x := Resolve(Resolve(b, r1), r2);
            && x.source == b.source && x.subLabel == r2.subLabel
            && x.path.rooted == b.path.rooted && x.path.segs == Normalize(b.path.segs)
  {
    hide Normalize;
    JoinIsAssociative(b.path.segs, r1.path.segs, r2.path.segs);
    JoinUnits(b.path.segs);
  }

  /**
   Embedded resolution composes, for every base and every first reference that names a file, if and only
   if the two references do not cancel to a bare label, or the base is the normal form of its own folder.
   */
  lemma EmbeddingComposes(b: AssetPath, r1: AssetPath, r2: AssetPath)
    requires EndsInAName(r1.path) && !r1.path.trailing && !StartsOver(r1, r2)
    ensures Same(ResolveEmbed(ResolveEmbed(b, r1), r2), ResolveEmbed(b, ResolveEmbed(r1, r2)))
            <==> !LabelOnly(ResolveEmbed(r1, r2)) || Normalize(Folder(b.path).segs) == b.path.segs
  {
    hide Normalize;
    if !LabelOnly(r2) {
      EmbeddedTwice(b, r1, r2);
      if LabelOnly(ResolveEmbed(r1, r2)) {
        CancellingLeadsToTheFolder(InFolder(b), FolderOf(r1), r2);
      } else {
        ResolveComposes(InFolder(b), FolderOf(r1), r2);
      }
    }
  }

  lemma {:induction false} ExcessAppend(a: seq<Seg>, b: seq<Seg>)
    ensures Excess(a + b) == Excess(a) + Excess(b)
  {
    if b == [] {
      assert a + b == a;
    } else {
      ExcessAppend(a, b[..|b| - 1]);
      assert (a + b)[..|a + b| - 1] == a + b[..|b| - 1];
    }
  }

  lemma ExcessOfNormal(s: seq<Seg>)
    ensures Excess(Normalize(s)) == Excess(s)
  {
    hide Normalize, UpCount, NameList, MaxExcess, Excess;
    UpCountIsMaxExcess(s);
    UpCountIsMaxExcess(Normalize(s));
    NormalizeIsCanonical(s);
    CanonicalIsNormal(UpCount(s), NameList(s));
  }

  /** Joined and normalised in any order, as many levels are climbed. */
  lemma ExcessOfJoined(a: seq<Seg>, b: seq<Seg>, c: seq<Seg>)
    ensures Excess(Normalize(Normalize(a + b) + c)) == Excess(a) + Excess(b) + Excess(c)
    ensures Excess(Normalize(a + Normalize(b + c))) == Excess(a) + Excess(b) + Excess(c)
  {
    hide Normalize, Excess;
    ExcessOfNormal(Normalize(a + b) + c);
    ExcessAppend(Normalize(a + b), c);
    ExcessOfNormal(a + b);
    ExcessAppend(a, b);
    ExcessOfNormal(a + Normalize(b + c));
    ExcessAppend(a, Normalize(b + c));
    ExcessOfNormal(b + c);
    ExcessAppend(b, c);
  }

  /**
   When the first reference names a folder, with a slash at its end, embedded resolution never composes
   with a relative second one: normalising drops the slash, and the next resolution drops the folder.
   */
  lemma SlashNeverComposes(b: AssetPath, r1: AssetPath, r2: AssetPath)
    requires EndsInAName(r1.path) && r1.path.trailing
    requires r2.source.None? && !r2.path.rooted && !LabelOnly(r2) && !LabelOnly(ResolveEmbed(r1, r2))
    ensures !Same(ResolveEmbed(ResolveEmbed(b, r1), r2), ResolveEmbed(b, ResolveEmbed(r1, r2)))
  {
    hide Normalize, Excess;
    var base := if !r1.path.rooted && r1.source.None? then Folder(b.path).segs else [];
    var segs := r1.path.segs;
    var init, last := segs[..|segs| - 1], segs[|segs| - 1];
    NameAtTheEnd(base, segs);
    ExcessOfJoined(base, init, r2.path.segs);
    ExcessOfJoined(base, segs, r2.path.segs);
    ExcessOfName(segs);
    assert ResolveEmbed(ResolveEmbed(b, r1), r2).path.segs == Normalize(Normalize(base + init) + r2.path.segs);
    assert ResolveEmbed(b, ResolveEmbed(r1, r2)).path.segs == Normalize(base + Normalize(segs + r2.path.segs));
  }

  lemma ExcessOfName(segs: seq<Seg>)
    requires segs != [] && segs[|segs| - 1].Name?
    ensures Excess(segs) == Excess(segs[..|segs| - 1]) - 1
  {
  }
}
