/**
 The text of a Unix path and its components, as `Path::components` and `PathBuf::push` relate
 them in voker-asset (`path.rs`, `utils.rs`): repeated slashes and inner `.` vanish, a leading `.`
 stays.
 */
module AssetPathComponents {
  import opened AssetPathText
  import opened AssetPathResolve

  function IndexOfSlash(s: string): (i: nat)
    requires '/' in s
    ensures i < |s| && s[i] == '/' && '/' !in s[..i]
  {
    if s[0] == '/' then 0
    else
      assert s == [s[0]] + s[1..];
      1 + IndexOfSlash(s[1..])
  }

  /** The text between slashes. */
  function Pieces(s: string): (r: seq<string>)
    ensures r != []
    decreases |s|
  {
    if '/' !in s then [s]
    else
      var i := IndexOfSlash(s);
      [s[..i]] + Pieces(s[i + 1..])
  }

  function SegOf(piece: string): Seg {
    if piece == "." then Cur else if piece == ".." then Parent else Name(piece)
  }

  /** Components after the first: empty pieces and `.` are skipped. */
  function SegsOf(pieces: seq<string>): seq<Seg> {
    if pieces == [] then []
    else (if pieces[0] == "" || pieces[0] == "." then [] else [SegOf(pieces[0])]) + SegsOf(pieces[1..])
  }

  predicate StartsWithSlash(s: string) {
    s != "" && s[0] == '/'
  }

  function Components(s: string): Path {
    var pieces := Pieces(s);
    var rooted := StartsWithSlash(s);
    Path(rooted,
         if !rooted && pieces[0] == "." then [Cur] + SegsOf(pieces[1..]) else SegsOf(pieces),
         s != "" && s[|s| - 1] == '/')
  }

  function TextOf(x: Seg): string {
    match x
    case Cur => "."
    case Parent => ".."
    case Name(n) => n
  }

  function Join(segs: seq<Seg>): string {
    if segs == [] then ""
    else if |segs| == 1 then TextOf(segs[0])
    else TextOf(segs[0]) + "/" + Join(segs[1..])
  }

  /** The text a path buffer holds after its components were pushed. */
  function Render(p: Path): string {
    (if p.rooted then "/" else "") + Join(p.segs)
  }

  predicate ValidName(n: string) {
    n != "" && n != "." && n != ".." && '/' !in n
  }

  predicate ValidSegs(segs: seq<Seg>) {
    forall i :: 0 <= i < |segs| ==> (segs[i].Name? ==> ValidName(segs[i].name)) && segs[i] != Cur
  }

  lemma PiecesAfterSlash(piece: string, rest: string)
    requires '/' !in piece
    ensures Pieces(piece + "/" + rest) == [piece] + Pieces(rest)
  {
    var s := piece + "/" + rest;
    assert s[|piece|] == '/';
    var i := IndexOfSlash(s);
    assert forall k :: 0 <= k < |piece| ==> s[k] == piece[k] && piece[k] in piece;
    assert forall k :: 0 <= k < i ==> s[k] == s[..i][k] && s[k] in s[..i];
    assert s[..i] == piece && s[i + 1..] == rest;
  }

  lemma TextIsOnePiece(x: Seg)
    requires x.Name? ==> ValidName(x.name)
    ensures '/' !in TextOf(x) && TextOf(x) != "" && SegOf(TextOf(x)) == x
    ensures TextOf(x)[0] != '/' && TextOf(x)[|TextOf(x)| - 1] != '/'
  {
  }

  predicate NoSlashAtEnds(s: string) {
    s != "" && s[0] != '/' && s[|s| - 1] != '/'
  }

  lemma {:induction false} JoinedEnds(segs: seq<Seg>)
    requires segs != [] && ValidSegs(segs)
    ensures NoSlashAtEnds(Join(segs))
  {
    TextIsOnePiece(segs[0]);
    if |segs| > 1 {
      JoinedEnds(segs[1..]);
    }
  }

  lemma SegsOfCons(x: Seg, pieces: seq<string>)
    requires x != Cur && (x.Name? ==> ValidName(x.name))
    ensures SegsOf([TextOf(x)] + pieces) == [x] + SegsOf(pieces)
  {
    TextIsOnePiece(x);
    assert ([TextOf(x)] + pieces)[1..] == pieces;
  }

  lemma {:induction false} JoinedPieces(segs: seq<Seg>)
    requires segs != [] && ValidSegs(segs)
    ensures SegsOf(Pieces(Join(segs))) == segs && Pieces(Join(segs))[0] == TextOf(segs[0])
  {
    hide SegsOf, Pieces;
    TextIsOnePiece(segs[0]);
    var first := TextOf(segs[0]);
    if |segs| == 1 {
      PiecesOfOne(first);
      SegsOfCons(segs[0], []);
      assert [first] + [] == [first] && segs == [segs[0]] + [];
      SegsOfNothing();
    } else {
      JoinedPieces(segs[1..]);
      PiecesAfterSlash(first, Join(segs[1..]));
      SegsOfCons(segs[0], Pieces(Join(segs[1..])));
      assert segs == [segs[0]] + segs[1..];
    }
  }

  lemma PiecesOfOne(piece: string)
    requires '/' !in piece
    ensures Pieces(piece) == [piece]
  {
  }

  lemma SegsOfNothing()
    ensures SegsOf([]) == [] && SegsOf([""]) == [] && SegsOf(["", ""]) == []
  {
    assert [""][1..] == [] && ["", ""][1..] == [""];
  }

  lemma SegsAfterRoot(pieces: seq<string>)
    ensures SegsOf([""] + pieces) == SegsOf(pieces)
  {
    assert ([""] + pieces)[1..] == pieces;
  }

  /** The components of the text of a normalised path are that path: the component view loses nothing. */
  lemma ComponentsOfRender(p: Path)
    requires ValidSegs(p.segs) && p.trailing == (p.rooted && p.segs == [])
    ensures Components(Render(p)) == p
  {
    hide SegsOf, Pieces, Join;
    if p.segs == [] {
      RenderedRoot(p);
    } else {
      JoinedPieces(p.segs);
      JoinedEnds(p.segs);
      TextIsOnePiece(p.segs[0]);
      if p.rooted {
        PiecesAfterSlash("", Join(p.segs));
        assert Render(p) == "" + "/" + Join(p.segs);
        SegsAfterRoot(Pieces(Join(p.segs)));
      } else {
        assert Render(p) == Join(p.segs);
      }
    }
  }

  lemma RenderedRoot(p: Path)
    requires p.segs == [] && p.trailing == p.rooted
    ensures Components(Render(p)) == p
  {
    hide SegsOf, Pieces;
    PiecesOfOne("");
    SegsOfNothing();
    if p.rooted {
      PiecesAfterSlash("", "");
      assert Render(p) == "" + "/" + "";
      assert [""] + [""] == ["", ""];
    } else {
      assert Render(p) == "";
    }
  }

  /** Normalising a path of valid names gives a path whose text has exactly its components. */
  lemma NormalFormsRender(p: Path)
    requires forall i :: 0 <= i < |p.segs| ==> (p.segs[i].Name? ==> ValidName(p.segs[i].name))
    ensures var q := Path(p.rooted, Normalize(p.segs), p.rooted && Normalize(p.segs) == []);
            Components(Render(q)) == q
  {
    NormalizeKeepsNamesValid(p.segs);
    ComponentsOfRender(Path(p.rooted, Normalize(p.segs), p.rooted && Normalize(p.segs) == []));
  }

  lemma {:induction false} NormalizeKeepsNamesValid(s: seq<Seg>)
    requires forall i :: 0 <= i < |s| ==> (s[i].Name? ==> ValidName(s[i].name))
    ensures ValidSegs(Normalize(s))
  {
    if s != [] {
      NormalizeKeepsNamesValid(s[..|s| - 1]);
    }
  }

  // ---------------------------------------------------------------------------
  // Any text: the components of two texts joined by a slash

  lemma {:induction false} PiecesOfJoin(a: string, b: string)
    ensures Pieces(a + "/" + b) == Pieces(a) + Pieces(b)
    decreases |a|
  {
    hide Pieces, IndexOfSlash;
    if '/' !in a {
      PiecesOfOne(a);
      PiecesAfterSlash(a, b);
    } else {
      var i := IndexOfSlash(a);
      var piece, rest := a[..i], a[i + 1..];
      assert a == piece + "/" + rest;
      PiecesAfterSlash(piece, rest);
      PiecesOfJoin(rest, b);
      PiecesAfterSlash(piece, rest + "/" + b);
      assert a + "/" + b == piece + "/" + (rest + "/" + b);
      assert [piece] + (Pieces(rest) + Pieces(b)) == [piece] + Pieces(rest) + Pieces(b);
    }
  }

  lemma {:induction false} SegsOfJoin(x: seq<string>, y: seq<string>)
    ensures SegsOf(x + y) == SegsOf(x) + SegsOf(y)
  {
    hide SegsOf;
    if x == [] {
      SegsOfNothing();
      assert x + y == y;
    } else {
      SegsOfJoin(x[1..], y);
      SegsOfFirst(x);
      SegsOfFirst(x + y);
      assert (x + y)[1..] == x[1..] + y;
    }
  }

  function FirstSeg(piece: string): seq<Seg> {
    if piece == "" || piece == "." then [] else [SegOf(piece)]
  }

  lemma SegsOfFirst(pieces: seq<string>)
    requires pieces != []
    ensures SegsOf(pieces) == FirstSeg(pieces[0]) + SegsOf(pieces[1..])
  {
  }

  /** A leading `.` is a component only at the start of a path. */
  function WithoutDot(segs: seq<Seg>): seq<Seg> {
    if segs != [] && segs[0] == Cur then segs[1..] else segs
  }

  lemma {:induction false} NoDotWithin(pieces: seq<string>)
    ensures Cur !in SegsOf(pieces)
  {
    if pieces != [] {
      NoDotWithin(pieces[1..]);
    }
  }

  lemma PiecesWithoutDot(s: string)
    ensures SegsOf(Pieces(s)) == WithoutDot(Components(s).segs)
    ensures Cur !in SegsOf(Pieces(s))
  {
    hide Pieces;
    NoDotWithin(Pieces(s));
  }

  predicate EndsInSlash(s: string) {
    s != "" && s[|s| - 1] == '/'
  }

  /**
   Two texts joined by a slash: the root of the first, the components of the first and then those of
   the second without a leading `.`. With `ComponentsOfOnePiece` and `ComponentsBehindRoot` this
   determines the components of every text.
   */
  lemma ComponentsOfJoin(a: string, b: string)
    requires a != ""
    ensures Components(a + "/" + b) ==
            Path(StartsWithSlash(a), Components(a).segs + WithoutDot(Components(b).segs), b == "" || EndsInSlash(b))
  {
    hide SegsOf, Pieces, WithoutDot;
    var t := a + "/" + b;
    PiecesOfJoin(a, b);
    PiecesWithoutDot(b);
    assert t[0] == a[0] && (b != "" ==> t[|t| - 1] == b[|b| - 1]) && (b == "" ==> t[|t| - 1] == '/');
    JoinedSegs(StartsWithSlash(a), Pieces(a), Pieces(b));
  }

  lemma JoinedSegs(rooted: bool, x: seq<string>, y: seq<string>)
    requires x != []
    ensures (if !rooted && (x + y)[0] == "." then [Cur] + SegsOf((x + y)[1..]) else SegsOf(x + y))
         == (if !rooted && x[0] == "." then [Cur] + SegsOf(x[1..]) else SegsOf(x)) + SegsOf(y)
  {
    hide SegsOf;
    SegsOfJoin(x, y);
    SegsOfJoin(x[1..], y);
    assert (x + y)[1..] == x[1..] + y;
    assert [Cur] + (SegsOf(x[1..]) + SegsOf(y)) == [Cur] + SegsOf(x[1..]) + SegsOf(y);
  }

  lemma ComponentsBehindRoot(b: string)
    ensures Components("/" + b) == Path(true, WithoutDot(Components(b).segs), b == "" || EndsInSlash(b))
  {
    hide SegsOf, Pieces;
    PiecesAfterSlash("", b);
    assert "" + "/" + b == "/" + b;
    SegsAfterRoot(Pieces(b));
    PiecesWithoutDot(b);
  }

  lemma ComponentsOfOnePiece(piece: string)
    requires '/' !in piece
    ensures Components(piece) ==
            Path(false, if piece == "" then [] else if piece == "." then [Cur] else if piece == ".." then [Parent] else [Name(piece)], false)
  {
    PiecesOfOne(piece);
    SegsOfNothing();
    assert [piece][1..] == [];
  }

  /** Repeated slashes and a `.` between slashes make no difference. */
  lemma EmptyPiecesVanish(a: string, b: string)
    requires a != ""
    ensures Components(a + "//" + b) == Components(a + "/" + b)
    ensures Components(a + "/./" + b) == Components(a + "/" + b)
  {
    hide Components, WithoutDot, EndsInSlash;
    ComponentsOfJoin(a, b);
    assert a + "//" + b == a + "/" + ("/" + b);
    BehindSlash(b);
    ComponentsOfJoin(a, "/" + b);
    assert a + "/./" + b == a + "/" + ("." + "/" + b);
    BehindDot(b);
    ComponentsOfJoin(a, "." + "/" + b);
  }

  lemma BehindSlash(b: string)
    ensures WithoutDot(Components("/" + b).segs) == WithoutDot(Components(b).segs)
    ensures EndsInSlash("/" + b) <==> b == "" || EndsInSlash(b)
  {
    ComponentsBehindRoot(b);
    PiecesWithoutDot(b);
  }

  lemma BehindDot(b: string)
    ensures WithoutDot(Components("." + "/" + b).segs) == WithoutDot(Components(b).segs)
    ensures EndsInSlash("." + "/" + b) <==> b == "" || EndsInSlash(b)
  {
    hide Components;
    ComponentsOfJoin(".", b);
    ComponentsOfOnePiece(".");
    var segs := WithoutDot(Components(b).segs);
    assert ([Cur] + segs)[1..] == segs;
  }

  lemma DotsVanish(segs: seq<Seg>)
    ensures Normalize(WithoutDot(segs)) == Normalize(segs)
    ensures Normalize([Cur] + segs) == Normalize(segs)
  {
    hide Normalize;
    NothingToNormalize();
    NormalizeInside([Cur], segs);
    NormalizeInside([], segs);
    assert [] + segs == segs;
    if segs != [] && segs[0] == Cur {
      assert segs == [Cur] + segs[1..];
      NormalizeInside([Cur], segs[1..]);
      assert [] + segs[1..] == segs[1..];
    }
  }

  lemma NothingToNormalize()
    ensures Normalize([]) == [] && Normalize([Cur]) == []
  {
    assert [Cur][..0] == [];
  }

  /** A reference `./t` leads where `t` leads, from every base and in both modes. */
  lemma DotSlashIsNothing(base: AssetPath, t: string, subLabel: Option<string>)
    requires t != "" && !StartsWithSlash(t)
    ensures Normalize(Components("./" + t).segs) == Normalize(Components(t).segs)
    ensures var r, r' := AssetPath(None, Components(t), subLabel), AssetPath(None, Components("./" + t), subLabel);
            Resolve(base, r') == Resolve(base, r) && ResolveEmbed(base, r') == ResolveEmbed(base, r)
  {
    hide Normalize, Components;
    ComponentsOfJoin(".", t);
    ComponentsOfOnePiece(".");
    assert "." + "/" + t == "./" + t;
    DotsVanish(Components(t).segs);
    DotsVanish(WithoutDot(Components(t).segs));
    SameBehindAnyBase(base.path.segs, Components("./" + t).segs, Components(t).segs);
    SameBehindAnyBase(Folder(base.path).segs, Components("./" + t).segs, Components(t).segs);
    SomethingIsThere(t);
  }

  lemma SameBehindAnyBase(base: seq<Seg>, x: seq<Seg>, y: seq<Seg>)
    requires Normalize(x) == Normalize(y)
    ensures Normalize(base + x) == Normalize(base + y)
  {
    hide Normalize;
    NormalizeOfPieces(base, x);
    NormalizeOfPieces(base, y);
  }

  lemma SomethingIsThere(t: string)
    requires t != "" && !StartsWithSlash(t)
    ensures Components(t).segs != [] && !Components(t).rooted
  {
    if '/' !in t {
      ComponentsOfOnePiece(t);
    } else {
      var i := IndexOfSlash(t);
      assert t == t[..i] + "/" + t[i + 1..];
      ComponentsOfJoin(t[..i], t[i + 1..]);
      ComponentsOfOnePiece(t[..i]);
    }
  }

  predicate ValidNames(segs: seq<Seg>) {
    forall i :: 0 <= i < |segs| ==> (segs[i].Name? ==> ValidName(segs[i].name))
  }

  /** A resolved path is what its text says it is: root, components and slash at the end. */
  lemma ResolvedPathRenders(base: Path, source: Option<string>, rpath: Path)
    requires ValidNames(base.segs) && ValidNames(rpath.segs)
    ensures var p := ResolvedPath(base, source, rpath); Components(Render(p)) == p
  {
    hide Normalize, Components, Render;
    var under := !rpath.rooted && source.None?;
    NormalFormsRender(Path(under && base.rooted, (if under then base.segs else []) + rpath.segs, false));
  }
}
