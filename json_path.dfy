/**
 * The MySQL JSON path renderers: the bind processors of `JSONIndexType`
 * (one index or key) and `JSONPathType` (a sequence of them), which turn
 * an index or path into the `$`-rooted path text handed to `JSON_EXTRACT`.
 * Keys are inserted verbatim, with no escaping; the inverse functions
 * below (`Split`, `ParsePiece`, `ParsePath`) recover the segments exactly
 * when no key could be mistaken for a separator or an index.
 */
module MySqlJsonPath {
  import opened Wrappers
  import opened Decimal

  /** One step of a path: an array index or an object key. */
  datatype Segment = Int(n: int) | Str(key: string)

  /** `JSONIndexType.bind_processor`: `"$.[%s]"` for an integer, `"$.%s"` for anything else. */
  function IndexPath(seg: Segment): (r: string)
    ensures |r| >= 2 && r[..2] == "$."
    ensures seg.Str? ==> r[2..] == seg.key
    ensures seg.Int? ==> |r| >= 4 && r[2] == '[' && r[|r| - 1] == ']'
    ensures seg.Int? ==> r[3..|r| - 1] == IntToString(seg.n) && ParseInt(r[3..|r| - 1]) == Some(seg.n)
  {
    match seg
    case Int(n) =>
      var r := "$.[" + IntToString(n) + "]";
      assert r[3..|r| - 1] == IntToString(n);
      ParseIntToString(n);
      r
    case Str(k) => "$." + k
  }

  /** One element of the list comprehension in `JSONPathType.bind_processor`. */
  function Piece(seg: Segment): string {
    match seg
    case Int(n) => "[" + IntToString(n) + "]"
    case Str(k) => k
  }

  /** The rendered pieces of a path, one per segment, in order. */
  function Pieces(path: seq<Segment>): seq<string> {
    seq(|path|, i requires 0 <= i < |path| => Piece(path[i]))
  }

  /** Python's `".".join(pieces)`. */
  function Join(pieces: seq<string>): string
    decreases |pieces|
  {
    if |pieces| == 0 then ""
    else if |pieces| == 1 then pieces[0]
    else pieces[0] + "." + Join(pieces[1..])
  }

  /** `JSONPathType.bind_processor`: `"$."` followed by the pieces joined with dots. */
  function PathExpr(path: seq<Segment>): (r: string)
    ensures |r| >= 2 && r[..2] == "$."
  {
    "$." + Join(Pieces(path))
  }

  // ---------------------------------------------------------------------
  // Reading a rendered path back

  /** Python's `s.split(".")`: the maximal dot-free runs of `s`, in order. */
  function Split(s: string): (parts: seq<string>)
    ensures |parts| >= 1
    decreases |s|
  {
    if |s| == 0 then [""]
    else
      var rest := Split(s[1..]);
      if s[0] == '.' then [""] + rest else [[s[0]] + rest[0]] + rest[1..]
  }

  /** A piece of the form `[<integer>]` reads as an index; any other piece as a key. */
  function ParsePiece(piece: string): Segment {
    if |piece| >= 2 && piece[0] == '[' && piece[|piece| - 1] == ']' then
      match ParseInt(piece[1..|piece| - 1])
      case Some(n) => Int(n)
      case None => Str(piece)
    else Str(piece)
  }

  /** Reads the output of `IndexPath` back into a segment. */
  function ParseIndexPath(r: string): Option<Segment> {
    if |r| >= 2 && r[..2] == "$." then Some(ParsePiece(r[2..])) else None
  }

  /** Reads the output of `PathExpr` back into a path. */
  function ParsePath(r: string): Option<seq<Segment>> {
    if |r| >= 2 && r[..2] == "$." then
      var parts := Split(r[2..]);
      Some(seq(|parts|, i requires 0 <= i < |parts| => ParsePiece(parts[i])))
    else None
  }

  /** A key that cannot be mistaken for an index piece. */
  predicate Unbracketed(key: string) {
    |key| == 0 || key[0] != '['
  }

  /** A key that survives the unescaped rendering: no dot and no leading bracket. */
  predicate PlainKey(key: string) {
    '.' !in key && Unbracketed(key)
  }

  predicate PlainPath(path: seq<Segment>) {
    forall i :: 0 <= i < |path| && path[i].Str? ==> PlainKey(path[i].key)
  }

  /** The number of dots in a string. */
  function Dots(s: string): nat
    decreases |s|
  {
    if |s| == 0 then 0 else (if s[0] == '.' then 1 else 0) + Dots(s[1..])
  }

  /** The dots that occur inside the keys of a path. */
  function KeyDots(path: seq<Segment>): nat
    decreases |path|
  {
    if |path| == 0 then 0
    else (if path[0].Str? then Dots(path[0].key) else 0) + KeyDots(path[1..])
  }

  // ---------------------------------------------------------------------
  // Properties of the renderers

  /** An index renders the same under both renderers when it is the whole path. */
  lemma SingleSegmentAgrees(seg: Segment)
    ensures PathExpr([seg]) == IndexPath(seg)
  {
  }

  lemma PiecesAppend(p: seq<Segment>, q: seq<Segment>)
    ensures Pieces(p + q) == Pieces(p) + Pieces(q)
  {
  }

  lemma {:induction false} JoinAppend(a: seq<string>, b: seq<string>)
    requires |a| >= 1 && |b| >= 1
    ensures Join(a + b) == Join(a) + "." + Join(b)
    decreases |a|
  {
    if |a| == 1 {
      assert (a + b)[1..] == b;
    } else {
      assert (a + b)[1..] == a[1..] + b;
      JoinAppend(a[1..], b);
    }
  }

  /**
   * Segment order is preserved: the rendering of a concatenation is the
   * rendering of the first part, a dot, and the pieces of the second part.
   */
  lemma PathAppend(p: seq<Segment>, q: seq<Segment>)
    requires |p| >= 1 && |q| >= 1
    ensures PathExpr(p + q) == PathExpr(p) + "." + Join(Pieces(q))
  {
    PiecesAppend(p, q);
    JoinAppend(Pieces(p), Pieces(q));
  }

  lemma {:induction false} DotsAppend(a: string, b: string)
    ensures Dots(a + b) == Dots(a) + Dots(b)
    decreases |a|
  {
    if |a| == 0 {
      assert a + b == b;
    } else {
      assert (a + b)[0] == a[0];
      assert (a + b)[1..] == a[1..] + b;
      DotsAppend(a[1..], b);
    }
  }

  lemma {:induction false} NoDotsMeansNoDot(s: string)
    ensures Dots(s) == 0 <==> '.' !in s
    decreases |s|
  {
    if |s| > 0 {
      NoDotsMeansNoDot(s[1..]);
      assert s == [s[0]] + s[1..];
    }
  }

  /** An index piece contains no dot, and a key piece exactly the key's dots. */
  lemma PieceDots(seg: Segment)
    ensures Dots(Piece(seg)) == (if seg.Str? then Dots(seg.key) else 0)
    ensures seg.Int? ==> '.' !in Piece(seg)
  {
    if seg.Int? {
      var t := IntToString(seg.n);
      assert '.' !in t by {
        forall k | 0 <= k < |t| ensures t[k] != '.' {
        }
      }
      assert '.' !in Piece(seg);
      NoDotsMeansNoDot(Piece(seg));
    }
  }

  /**
   * A path of k >= 1 segments carries exactly k - 1 joining dots after the
   * `$.` prefix, besides the dots inside its keys.
   */
  lemma {:induction false} SeparatorDots(path: seq<Segment>)
    requires |path| >= 1
    ensures Dots(PathExpr(path)[2..]) == |path| - 1 + KeyDots(path)
    decreases |path|
  {
    assert PathExpr(path)[2..] == Join(Pieces(path));
    PieceDots(path[0]);
    if |path| == 1 {
      assert KeyDots(path) == KeyDots(path[..1]) + 0 by { assert path[1..] == []; }
    } else {
      var tail := path[1..];
      var rest := Join(Pieces(tail));
      assert Pieces(path)[1..] == Pieces(tail);
      assert Join(Pieces(path)) == Piece(path[0]) + ("." + rest);
      DotsAppend(Piece(path[0]), "." + rest);
      DotsAppend(".", rest);
      assert Dots(".") == 1 by { assert "."[1..] == ""; }
      SeparatorDots(tail);
      assert PathExpr(tail)[2..] == rest;
    }
  }

  lemma {:induction false} SplitNoDot(a: string)
    requires '.' !in a
    ensures Split(a) == [a]
    decreases |a|
  {
    if |a| > 0 {
      SplitNoDot(a[1..]);
      assert [a[0]] + a[1..] == a;
    }
  }

  lemma {:induction false} SplitAtFirstDot(a: string, b: string)
    requires '.' !in a
    ensures Split(a + "." + b) == [a] + Split(b)
    decreases |a|
  {
    var s := a + "." + b;
    if |a| == 0 {
      assert s[1..] == b;
    } else {
      assert s[1..] == a[1..] + "." + b;
      SplitAtFirstDot(a[1..], b);
      assert [a[0]] + a[1..] == a;
    }
  }

  /** Splitting a dot-join of dot-free pieces gives the pieces back. */
  lemma {:induction false} SplitJoin(pieces: seq<string>)
    requires |pieces| >= 1
    requires forall i :: 0 <= i < |pieces| ==> '.' !in pieces[i]
    ensures Split(Join(pieces)) == pieces
    decreases |pieces|
  {
    if |pieces| == 1 {
      SplitNoDot(pieces[0]);
    } else {
      SplitAtFirstDot(pieces[0], Join(pieces[1..]));
      SplitJoin(pieces[1..]);
      assert [pieces[0]] + pieces[1..] == pieces;
    }
  }

  /** A piece reads back as its segment unless it is a key that looks like an index. */
  lemma ParsePieceOfPiece(seg: Segment)
    requires seg.Str? ==> Unbracketed(seg.key)
    ensures ParsePiece(Piece(seg)) == seg
  {
    if seg.Int? {
      var p := Piece(seg);
      assert p[1..|p| - 1] == IntToString(seg.n);
      ParseIntToString(seg.n);
    }
  }

  /** The single-segment rendering is injective except for keys that look like an index. */
  lemma IndexPathRoundTrip(seg: Segment)
    requires seg.Str? ==> Unbracketed(seg.key)
    ensures ParseIndexPath(IndexPath(seg)) == Some(seg)
  {
    var r := IndexPath(seg);
    assert r[2..] == Piece(seg);
    ParsePieceOfPiece(seg);
  }

  /**
   * A non-empty path whose keys hold no dot and no leading bracket reads
   * back from its rendering, segment for segment and in order.
   */
  lemma PathRoundTrip(path: seq<Segment>)
    requires |path| >= 1 && PlainPath(path)
    ensures ParsePath(PathExpr(path)) == Some(path)
  {
    var r := PathExpr(path);
    var ps := Pieces(path);
    assert r[2..] == Join(ps);
    forall i | 0 <= i < |ps| ensures '.' !in ps[i] {
      PieceDots(path[i]);
    }
    SplitJoin(ps);
    forall i | 0 <= i < |path| ensures ParsePiece(ps[i]) == path[i] {
      ParsePieceOfPiece(path[i]);
    }
    var parts := Split(r[2..]);
    assert parts == ps;
    assert seq(|parts|, i requires 0 <= i < |parts| => ParsePiece(parts[i])) == path;
  }

  /** Concrete renderings of both renderers. */
  lemma Renderings()
    ensures IndexPath(Int(2)) == "$.[2]"
    ensures IndexPath(Int(-5)) == "$.[-5]"
    ensures IndexPath(Int(0)) == "$.[0]"
    ensures IndexPath(Str("name")) == "$.name"
    ensures PathExpr([Str("a"), Int(2), Str("b")]) == "$.a.[2].b"
    ensures PathExpr([]) == "$."
  {
    assert IntToString(2) == "2";
    assert IntToString(-5) == "-5";
    assert IntToString(0) == "0";
    var path := [Str("a"), Int(2), Str("b")];
    assert Piece(path[1]) == "[2]";
    assert Pieces(path) == ["a", "[2]", "b"];
    assert Join(["a", "[2]", "b"]) == "a.[2].b";
    assert Pieces([]) == [];
  }

  /** Keys are not escaped: a dotted key renders like two keys. */
  lemma DottedKeyCollides()
    ensures PathExpr([Str("a.b")]) == PathExpr([Str("a"), Str("b")])
  {
  }

  /** Keys are not escaped: a bracketed key renders like an index. */
  lemma BracketedKeyCollides()
    ensures IndexPath(Str("[0]")) == IndexPath(Int(0))
  {
  }

  /** The empty path and the path of one empty key render alike. */
  lemma EmptyKeyCollides()
    ensures PathExpr([]) == PathExpr([Str("")])
  {
  }
}
