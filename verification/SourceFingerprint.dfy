// The workspace fingerprint of the IPC build script (packages/ipc/build.rs).
//
// Source files are collected from directory trees, sorted by normalized relative path, and fed to
// the digest as length-prefixed fields. What is hashed determines, and is determined by, what each
// normalized path holds; the digest itself is not modelled.
module SourceFingerprint {
  import opened Bytes
  import opened Wrappers

  datatype SourceFile = SourceFile(path: seq<byte>, contents: seq<byte>)

  const SLASH: byte := 47
  const BACKSLASH: byte := 92
  const WORD_LIMIT: int := 0x1_0000_0000_0000_0000

  // The relative path with forward slashes.
  function Relative(path: seq<byte>): (r: seq<byte>)
    ensures |r| == |path|
    ensures forall i :: 0 <= i < |path| ==> (path[i] == 92 ==> r[i] == 47) && (path[i] != 92 ==> r[i] == path[i])
  {
    seq(|path|, i requires 0 <= i < |path| => if path[i] == BACKSLASH then SLASH else path[i])
  }

  // ----- Length-prefixed framing -----

  function LittleEndian(n: nat, width: nat): (bytes: seq<byte>)
    ensures |bytes| == width
  {
    if width == 0 then [] else [(n % 256) as byte] + LittleEndian(n / 256, width - 1)
  }

  function FromLittleEndian(bytes: seq<byte>): nat {
    if bytes == [] then 0 else bytes[0] as int + 256 * FromLittleEndian(bytes[1..])
  }

  function Capacity(width: nat): nat {
    if width == 0 then 1 else 256 * Capacity(width - 1)
  }

  lemma {:induction false} LittleEndianRoundTrip(n: nat, width: nat)
    requires n < Capacity(width)
    ensures FromLittleEndian(LittleEndian(n, width)) == n
  {
    if width > 0 {
      LittleEndianRoundTrip(n / 256, width - 1);
      assert LittleEndian(n, width)[1..] == LittleEndian(n / 256, width - 1);
    }
  }

  function LengthWord(n: nat): (bytes: seq<byte>)
    ensures |bytes| == 8
  {
    LittleEndian(if n < WORD_LIMIT then n else WORD_LIMIT - 1, 8)
  }

  // A length past 64 bits is written as the greatest one.
  lemma {:induction false} LongLengthSaturates(n: nat)
    requires n >= WORD_LIMIT
    ensures LengthWord(n) == [255, 255, 255, 255, 255, 255, 255, 255]
  {
    assert Capacity(4) == 0x1_0000_0000 by {
      assert Capacity(1) == 256 && Capacity(2) == 0x1_0000 && Capacity(3) == 0x100_0000;
    }
    assert Capacity(8) == WORD_LIMIT by {
      assert Capacity(5) == 0x100_0000_0000 && Capacity(6) == 0x1_0000_0000_0000 && Capacity(7) == 0x100_0000_0000_0000;
    }
    AllOnes(WORD_LIMIT - 1, 8);
  }

  lemma {:induction false} AllOnes(n: nat, width: nat)
    requires n == Capacity(width) - 1
    ensures forall i :: 0 <= i < width ==> LittleEndian(n, width)[i] == 255
  {
    if width > 0 {
      AllOnes(n / 256, width - 1);
    }
  }

  lemma {:induction false} LengthWordDecodes(n: nat)
    requires n < WORD_LIMIT
    ensures FromLittleEndian(LengthWord(n)) == n
  {
    assert Capacity(4) == 0x1_0000_0000 by {
      assert Capacity(2) == 0x1_0000;
    }
    assert Capacity(6) == 0x1_0000_0000_0000;
    assert Capacity(8) == WORD_LIMIT;
    LittleEndianRoundTrip(n, 8);
  }

  function Framed(value: seq<byte>): seq<byte> {
    LengthWord(|value|) + value
  }

  // The first field of a stream, and the rest.
  function Unframe(stream: seq<byte>): Option<(seq<byte>, seq<byte>)> {
    if |stream| < 8 then None
    else
      var n := FromLittleEndian(stream[..8]);
      if |stream| < 8 + n then None else Some((stream[8..8 + n], stream[8 + n..]))
  }

  lemma {:induction false} UnframeFramed(value: seq<byte>, rest: seq<byte>)
    requires |value| < WORD_LIMIT
    ensures Unframe(Framed(value) + rest) == Some((value, rest))
  {
    var stream := Framed(value) + rest;
    LengthWordDecodes(|value|);
    assert stream[..8] == LengthWord(|value|);
    assert stream[8..8 + |value|] == value;
    assert stream[8 + |value|..] == rest;
  }

  // What the digest is fed for the listed files.
  function Stream(files: seq<SourceFile>): seq<byte> {
    if files == [] then []
    else Framed(Relative(files[0].path)) + Framed(files[0].contents) + Stream(files[1..])
  }

  function Decode(stream: seq<byte>): Option<seq<SourceFile>>
    decreases |stream|
  {
    if stream == [] then Some([])
    else
      match Unframe(stream)
      case None => None
      case Some((path, more)) =>
        match Unframe(more)
        case None => None
        case Some((contents, rest)) =>
          match Decode(rest)
          case None => None
          case Some(files) => Some([SourceFile(path, contents)] + files)
  }

  predicate Fits(f: SourceFile) {
    |f.path| < WORD_LIMIT && |f.contents| < WORD_LIMIT
  }

  function Normalized(files: seq<SourceFile>): (r: seq<SourceFile>)
    ensures |r| == |files|
    ensures forall i :: 0 <= i < |r| ==> r[i] == SourceFile(Relative(files[i].path), files[i].contents)
  {
    seq(|files|, i requires 0 <= i < |files| => SourceFile(Relative(files[i].path), files[i].contents))
  }

  lemma {:induction false} FirstFileDecodes(path: seq<byte>, contents: seq<byte>, rest: seq<byte>)
    requires |path| < WORD_LIMIT && |contents| < WORD_LIMIT
    ensures
      Decode(Framed(path) + (Framed(contents) + rest)) ==
      match Decode(rest)
      case None => None
      case Some(files) => Some([SourceFile(path, contents)] + files)
  {
    hide Unframe, LengthWord;
    UnframeFramed(path, Framed(contents) + rest);
    UnframeFramed(contents, rest);
  }

  lemma {:induction false} StreamCons(files: seq<SourceFile>)
    requires files != []
    ensures Stream(files)
         == Framed(Relative(files[0].path)) + (Framed(files[0].contents) + Stream(files[1..]))
    ensures Normalized(files) == [SourceFile(Relative(files[0].path), files[0].contents)] + Normalized(files[1..])
  {
    hide Framed, Relative;
  }

  // The framing decodes to the files it was made from.
  lemma {:induction false} StreamDecodes(files: seq<SourceFile>)
    requires forall f :: f in files ==> Fits(f)
    ensures Decode(Stream(files)) == Some(Normalized(files))
    decreases |files|
  {
    if files != [] {
      assert Fits(files[0]);
      StreamDecodes(files[1..]);
      hide Decode, Framed, Relative, Stream, Normalized;
      FirstFileDecodes(Relative(files[0].path), files[0].contents, Stream(files[1..]));
      StreamCons(files);
    }
  }

  // ----- Sorting by relative path -----

  predicate Before(a: SourceFile, b: SourceFile) {
    Less(Relative(a.path), Relative(b.path))
  }

  // Stable insertion: a file goes behind all files that do not come after it.
  function Insert(f: SourceFile, files: seq<SourceFile>): seq<SourceFile> {
    if files == [] then [f]
    else if Before(f, files[|files| - 1]) then Insert(f, files[..|files| - 1]) + [files[|files| - 1]]
    else files + [f]
  }

  function Sort(files: seq<SourceFile>): seq<SourceFile> {
    if files == [] then [] else Insert(files[|files| - 1], Sort(files[..|files| - 1]))
  }

  ghost predicate Ordered(files: seq<SourceFile>) {
    forall i, j :: 0 <= i < j < |files| ==> !Before(files[j], files[i])
  }

  ghost predicate Ascending(files: seq<SourceFile>) {
    forall i, j :: 0 <= i < j < |files| ==> Before(files[i], files[j])
  }

  // No two files share a normalized path.
  ghost predicate DistinctPaths(files: seq<SourceFile>) {
    forall i, j :: 0 <= i < j < |files| ==> Relative(files[i].path) != Relative(files[j].path)
  }

  // The files with one normalized path, in order.
  function At(files: seq<SourceFile>, p: seq<byte>): seq<SourceFile> {
    if files == [] then []
    else At(files[..|files| - 1], p) + if Relative(files[|files| - 1].path) == p then [files[|files| - 1]] else []
  }

  lemma {:induction false} AtAppend(files: seq<SourceFile>, f: SourceFile, p: seq<byte>)
    ensures At(files + [f], p) == At(files, p) + if Relative(f.path) == p then [f] else []
  {
    assert (files + [f])[..|files|] == files;
  }

  lemma {:induction false} AtHolds(files: seq<SourceFile>, p: seq<byte>, f: SourceFile)
    ensures f in At(files, p) <==> f in files && Relative(f.path) == p
  {
    if files != [] {
      AtHolds(files[..|files| - 1], p, f);
      assert files == files[..|files| - 1] + [files[|files| - 1]];
    }
  }

  // Where the file at index i stands among those with its path.
  lemma {:induction false} AtIndex(files: seq<SourceFile>, i: nat, n: nat)
    requires i < n <= |files|
    ensures var p := Relative(files[i].path);
            |At(files[..i], p)| < |At(files[..n], p)| && At(files[..n], p)[|At(files[..i], p)|] == files[i]
    decreases n
  {
    var p := Relative(files[i].path);
    assert files[..n] == files[..n - 1] + [files[n - 1]];
    AtAppend(files[..n - 1], files[n - 1], p);
    if i < n - 1 {
      AtIndex(files, i, n - 1);
    }
  }

  lemma {:induction false} InsertIsStable(f: SourceFile, files: seq<SourceFile>, p: seq<byte>)
    ensures At(Insert(f, files), p) == At(files, p) + if Relative(f.path) == p then [f] else []
  {
    AtAppend(files, f, p);
    if files != [] && Before(f, files[|files| - 1]) {
      var init, last := files[..|files| - 1], files[|files| - 1];
      InsertIsStable(f, init, p);
      AtAppend(Insert(f, init), last, p);
      LessIsStrict(Relative(f.path), Relative(last.path));
    }
  }

  // Sorting keeps the files of each normalized path and their order.
  lemma {:induction false} SortIsStable(files: seq<SourceFile>, p: seq<byte>)
    ensures At(Sort(files), p) == At(files, p)
  {
    if files != [] {
      SortIsStable(files[..|files| - 1], p);
      InsertIsStable(files[|files| - 1], Sort(files[..|files| - 1]), p);
    }
  }

  lemma {:induction false} SortHolds(files: seq<SourceFile>, x: SourceFile)
    ensures x in Sort(files) <==> x in files
  {
    SortIsStable(files, Relative(x.path));
    AtHolds(Sort(files), Relative(x.path), x);
    AtHolds(files, Relative(x.path), x);
  }

  lemma {:induction false} InsertHolds(f: SourceFile, files: seq<SourceFile>, x: SourceFile)
    ensures x in Insert(f, files) <==> x == f || x in files
  {
    if files != [] {
      InsertHolds(f, files[..|files| - 1], x);
    }
  }

  lemma {:induction false} InsertKeepsOrder(f: SourceFile, files: seq<SourceFile>)
    requires Ordered(files)
    ensures Ordered(Insert(f, files))
  {
    if files != [] {
      var init, last := files[..|files| - 1], files[|files| - 1];
      if Before(f, last) {
        InsertKeepsOrder(f, init);
        var r := Insert(f, init);
        LessIsStrict(Relative(f.path), Relative(last.path));
        forall i | 0 <= i < |r| ensures !Before(last, r[i]) {
          InsertHolds(f, init, r[i]);
        }
      } else {
        forall i | 0 <= i < |files| ensures !Before(f, files[i]) {
          NotBeforeIsTransitive(f, last, files[i]);
        }
      }
    }
  }

  lemma {:induction false} NotBeforeIsTransitive(a: SourceFile, b: SourceFile, c: SourceFile)
    requires !Before(a, b) && (c == b || !Before(b, c))
    ensures !Before(a, c)
  {
    LessIsTotal(Relative(a.path), Relative(b.path));
    if Before(a, c) && Before(b, a) {
      LessIsTransitive(Relative(b.path), Relative(a.path), Relative(c.path));
    }
  }

  lemma {:induction false} SortInOrder(files: seq<SourceFile>)
    ensures Ordered(Sort(files))
  {
    if files != [] {
      SortInOrder(files[..|files| - 1]);
      InsertKeepsOrder(files[|files| - 1], Sort(files[..|files| - 1]));
    }
  }

  lemma {:induction false} NoneAt(files: seq<SourceFile>)
    requires forall p :: At(files, p) == []
    ensures files == []
  {
    if files != [] {
      LastAt(files, Relative(files[|files| - 1].path));
    }
  }

  lemma {:induction false} OrderedInit(files: seq<SourceFile>)
    requires files != [] && Ordered(files)
    ensures Ordered(files[..|files| - 1])
  {
  }

  lemma {:induction false} LastAt(files: seq<SourceFile>, p: seq<byte>)
    requires files != [] && p == Relative(files[|files| - 1].path)
    ensures At(files, p) != [] && At(files, p)[|At(files, p)| - 1] == files[|files| - 1]
  {
  }

  lemma {:induction false} SameLast(a: seq<SourceFile>, b: seq<SourceFile>)
    requires a != [] && b != [] && Ordered(a) && Ordered(b) && forall p :: At(a, p) == At(b, p)
    ensures a[|a| - 1] == b[|b| - 1]
  {
    var x, y := a[|a| - 1], b[|b| - 1];
    var p, q := Relative(x.path), Relative(y.path);
    LastAt(a, p);
    LastAt(b, q);
    hide At;
    assert x in At(b, p) && y in At(a, q);
    AtHolds(b, p, x);
    AtHolds(a, q, y);
    var i :| 0 <= i < |b| && b[i] == x;
    var j :| 0 <= j < |a| && a[j] == y;
    LessIsTotal(p, q);
  }

  // A list in order is determined by the files of each path: the stable sort is unique.
  lemma {:induction false} OrderedIsUnique(a: seq<SourceFile>, b: seq<SourceFile>)
    requires Ordered(a) && Ordered(b) && forall p :: At(a, p) == At(b, p)
    ensures a == b
  {
    if a == [] {
      assert forall p :: At(b, p) == At(a, p) == [];
      NoneAt(b);
    } else if b == [] {
      assert forall p :: At(a, p) == At(b, p) == [];
      NoneAt(a);
    } else {
      SameLast(a, b);
      OrderedInit(a);
      OrderedInit(b);
      hide Ordered, At;
      var x, y := a[..|a| - 1], b[..|b| - 1];
      assert a == x + [a[|a| - 1]] && b == y + [b[|b| - 1]];
      forall p ensures At(x, p) == At(y, p) {
        AtAppend(x, a[|a| - 1], p);
        AtAppend(y, b[|b| - 1], p);
        assert At(a, p) == At(b, p);
        var tail := if Relative(a[|a| - 1].path) == p then [a[|a| - 1]] else [];
        assert At(x, p) == (At(x, p) + tail)[..|At(a, p)| - |tail|];
        assert At(y, p) == (At(y, p) + tail)[..|At(b, p)| - |tail|];
      }
      OrderedIsUnique(x, y);
    }
  }

  lemma {:induction false} AtMostOne(files: seq<SourceFile>, p: seq<byte>)
    requires DistinctPaths(files)
    ensures |At(files, p)| <= 1
  {
    if files != [] {
      var init, last := files[..|files| - 1], files[|files| - 1];
      AtMostOne(init, p);
      if Relative(last.path) == p && At(init, p) != [] {
        AtHolds(init, p, At(init, p)[0]);
      }
    }
  }

  // Distinct normalized paths sort strictly ascending.
  lemma {:induction false} SortAscends(files: seq<SourceFile>)
    requires DistinctPaths(files)
    ensures Ascending(Sort(files))
  {
    var s := Sort(files);
    SortInOrder(files);
    forall i, j | 0 <= i < j < |s| ensures Before(s[i], s[j]) {
      var p := Relative(s[i].path);
      LessIsTotal(p, Relative(s[j].path));
      if p == Relative(s[j].path) {
        AtIndex(s, i, j);
        AtIndex(s, j, |s|);
        assert s[..|s|] == s;
        SortIsStable(files, p);
        AtMostOne(files, p);
        assert false;
      }
    }
  }

  // ----- The stream and what each path holds -----

  // The contents found under one normalized path, in order.
  function Contents(files: seq<SourceFile>, p: seq<byte>): (r: seq<seq<byte>>)
    ensures |r| == |At(files, p)| && forall i :: 0 <= i < |r| ==> r[i] == At(files, p)[i].contents
  {
    seq(|At(files, p)|, i requires 0 <= i < |At(files, p)| => At(files, p)[i].contents)
  }

  lemma {:induction false} RelativeTwice(path: seq<byte>)
    ensures Relative(Relative(path)) == Relative(path)
  {
  }

  lemma {:induction false} NormalizedAt(files: seq<SourceFile>, p: seq<byte>)
    ensures var r := At(Normalized(files), p);
            |r| == |At(files, p)| && forall i :: 0 <= i < |r| ==> r[i] == SourceFile(p, At(files, p)[i].contents)
  {
    if files != [] {
      var init, last := files[..|files| - 1], files[|files| - 1];
      NormalizedAt(init, p);
      RelativeTwice(last.path);
      assert Normalized(files) == Normalized(init) + [SourceFile(Relative(last.path), last.contents)];
      AtAppend(Normalized(init), SourceFile(Relative(last.path), last.contents), p);
    }
  }

  lemma {:induction false} NormalizedInOrder(files: seq<SourceFile>)
    requires Ordered(files)
    ensures Ordered(Normalized(files))
  {
    var r := Normalized(files);
    forall i, j | 0 <= i < j < |r| ensures !Before(r[j], r[i]) {
      RelativeTwice(files[i].path);
      RelativeTwice(files[j].path);
      assert !Before(files[j], files[i]);
    }
  }

  lemma {:induction false} StreamOfNormalized(files: seq<SourceFile>)
    ensures Stream(Normalized(files)) == Stream(files)
  {
    if files != [] {
      RelativeTwice(files[0].path);
      StreamOfNormalized(files[1..]);
      assert Normalized(files)[1..] == Normalized(files[1..]);
    }
  }

  lemma {:induction false} SortedContents(files: seq<SourceFile>, p: seq<byte>)
    ensures Contents(Sort(files), p) == Contents(files, p)
  {
    hide At, Sort;
    SortIsStable(files, p);
  }

  // Lists in order that hold the same contents under every path are fed as the same bytes.
  lemma {:induction false} ContentsDetermineStream(a: seq<SourceFile>, b: seq<SourceFile>)
    requires Ordered(a) && Ordered(b) && forall p :: Contents(a, p) == Contents(b, p)
    ensures Stream(a) == Stream(b)
  {
    hide At, Stream, Ordered;
    NormalizedInOrder(a);
    NormalizedInOrder(b);
    forall p ensures At(Normalized(a), p) == At(Normalized(b), p) {
      NormalizedAt(a, p);
      NormalizedAt(b, p);
      assert Contents(a, p) == Contents(b, p);
    }
    OrderedIsUnique(Normalized(a), Normalized(b));
    StreamOfNormalized(a);
    StreamOfNormalized(b);
  }

  lemma {:induction false} StreamDeterminesContents(a: seq<SourceFile>, b: seq<SourceFile>, p: seq<byte>)
    requires forall f :: f in a || f in b ==> Fits(f)
    requires Stream(a) == Stream(b)
    ensures Contents(a, p) == Contents(b, p)
  {
    StreamDecodes(a);
    StreamDecodes(b);
    hide At, Stream, Decode, Normalized;
    assert Normalized(a) == Normalized(b);
    NormalizedAt(a, p);
    NormalizedAt(b, p);
  }

  // Two source trees feed the digest the same bytes exactly when every normalized path holds the
  // same contents in the same order.
  lemma {:induction false} StreamIsContents(a: seq<SourceFile>, b: seq<SourceFile>)
    requires forall f :: f in a || f in b ==> Fits(f)
    ensures Stream(Sort(a)) == Stream(Sort(b)) <==> forall p :: Contents(a, p) == Contents(b, p)
  {
    hide Contents, Stream, Sort, Fits, Ordered;
    SortInOrder(a);
    SortInOrder(b);
    forall p ensures Contents(Sort(a), p) == Contents(a, p) && Contents(Sort(b), p) == Contents(b, p) {
      SortedContents(a, p);
      SortedContents(b, p);
    }
    if Stream(Sort(a)) == Stream(Sort(b)) {
      forall f | f in Sort(a) || f in Sort(b) ensures Fits(f) {
        SortHolds(a, f);
        SortHolds(b, f);
      }
      forall p ensures Contents(a, p) == Contents(b, p) {
        StreamDeterminesContents(Sort(a), Sort(b), p);
      }
    }
    if forall p :: Contents(a, p) == Contents(b, p) {
      forall p ensures Contents(Sort(a), p) == Contents(Sort(b), p) {
        assert Contents(a, p) == Contents(b, p);
      }
      ContentsDetermineStream(Sort(a), Sort(b));
    }
  }

  // ----- When the map of files is enough -----

  function FileMap(files: seq<SourceFile>): set<(seq<byte>, seq<byte>)> {
    set f | f in files :: (Relative(f.path), f.contents)
  }

  lemma {:induction false} MapHolds(files: seq<SourceFile>, p: seq<byte>, c: seq<byte>)
    ensures (p, c) in FileMap(files) <==> c in Contents(files, p)
  {
    if f :| f in files && (Relative(f.path), f.contents) == (p, c) {
      AtHolds(files, p, f);
      var i :| 0 <= i < |At(files, p)| && At(files, p)[i] == f;
      assert Contents(files, p)[i] == c;
    }
    if c in Contents(files, p) {
      var i :| 0 <= i < |Contents(files, p)| && Contents(files, p)[i] == c;
      AtHolds(files, p, At(files, p)[i]);
    }
  }

  // Equal streams come from equal maps, whatever the paths.
  lemma {:induction false} StreamDeterminesMap(a: seq<SourceFile>, b: seq<SourceFile>)
    requires forall f :: f in a || f in b ==> Fits(f)
    requires Stream(a) == Stream(b)
    ensures FileMap(a) == FileMap(b)
  {
    hide Contents, FileMap, Stream, Fits;
    forall m ensures m in FileMap(a) <==> m in FileMap(b) {
      StreamDeterminesContents(a, b, m.0);
      MapHolds(a, m.0, m.1);
      MapHolds(b, m.0, m.1);
    }
  }

  // With distinct normalized paths, two source trees give equal streams exactly when they are the
  // same map from normalized path to contents.
  lemma {:induction false} StreamIsTheMap(a: seq<SourceFile>, b: seq<SourceFile>)
    requires DistinctPaths(a) && DistinctPaths(b)
    requires forall f :: f in a || f in b ==> Fits(f)
    ensures Stream(Sort(a)) == Stream(Sort(b)) <==> FileMap(a) == FileMap(b)
  {
    hide At, FileMap, DistinctPaths, Stream, Sort, Fits;
    StreamIsContents(a, b);
    if FileMap(a) == FileMap(b) {
      forall p ensures Contents(a, p) == Contents(b, p) {
        AtMostOne(a, p);
        AtMostOne(b, p);
        SameSingles(a, b, p);
      }
    }
    if forall p :: Contents(a, p) == Contents(b, p) {
      forall m ensures m in FileMap(a) <==> m in FileMap(b) {
        assert Contents(a, m.0) == Contents(b, m.0);
        MapHolds(a, m.0, m.1);
        MapHolds(b, m.0, m.1);
      }
    }
  }

  lemma {:induction false} SameSingles(a: seq<SourceFile>, b: seq<SourceFile>, p: seq<byte>)
    requires FileMap(a) == FileMap(b) && |Contents(a, p)| <= 1 && |Contents(b, p)| <= 1
    ensures Contents(a, p) == Contents(b, p)
  {
    hide FileMap, Contents;
    if Contents(a, p) != [] {
      MapHolds(a, p, Contents(a, p)[0]);
      MapHolds(b, p, Contents(a, p)[0]);
    }
    if Contents(b, p) != [] {
      MapHolds(a, p, Contents(b, p)[0]);
      MapHolds(b, p, Contents(b, p)[0]);
    }
  }

  // Two files share a normalized path but not their contents.
  ghost predicate Clash(files: seq<SourceFile>) {
    exists i, j :: 0 <= i < j < |files| && Relative(files[i].path) == Relative(files[j].path)
                   && files[i].contents != files[j].contents
  }

  lemma {:induction false} AtCounts(files: seq<SourceFile>, p: seq<byte>, f: SourceFile)
    ensures multiset(At(files, p))[f] == if Relative(f.path) == p then multiset(files)[f] else 0
  {
    if files != [] {
      AtCounts(files[..|files| - 1], p, f);
      assert files == files[..|files| - 1] + [files[|files| - 1]];
    }
  }

  lemma {:induction false} SameLengthAt(a: seq<SourceFile>, b: seq<SourceFile>, p: seq<byte>)
    requires multiset(a) == multiset(b)
    ensures |At(a, p)| == |At(b, p)|
  {
    forall f ensures multiset(At(a, p))[f] == multiset(At(b, p))[f] {
      AtCounts(a, p, f);
      AtCounts(b, p, f);
    }
    assert multiset(At(a, p)) == multiset(At(b, p));
    assert |multiset(At(a, p))| == |At(a, p)| && |multiset(At(b, p))| == |At(b, p)|;
  }

  lemma {:induction false} OneContent(files: seq<SourceFile>, f: SourceFile, g: SourceFile)
    requires !Clash(files) && f in files && g in files && Relative(f.path) == Relative(g.path)
    ensures f.contents == g.contents
  {
    var i :| 0 <= i < |files| && files[i] == f;
    var j :| 0 <= j < |files| && files[j] == g;
  }

  lemma {:induction false} ReorderedAlike(a: seq<SourceFile>, b: seq<SourceFile>, p: seq<byte>)
    requires !Clash(a) && multiset(a) == multiset(b)
    ensures Contents(a, p) == Contents(b, p)
  {
    SameLengthAt(a, b, p);
    hide At, Clash;
    forall i | 0 <= i < |At(a, p)| ensures At(a, p)[i].contents == At(b, p)[i].contents {
      var f, g := At(a, p)[i], At(b, p)[i];
      AtHolds(a, p, f);
      AtHolds(b, p, g);
      assert g in multiset(b);
      OneContent(a, f, g);
    }
  }

  // Swapping two clashing files changes what their path holds.
  lemma {:induction false} SwapShows(a: seq<SourceFile>, i: nat, j: nat)
    requires i < j < |a| && Relative(a[i].path) == Relative(a[j].path) && a[i].contents != a[j].contents
    ensures var b := a[i := a[j]][j := a[i]];
            multiset(b) == multiset(a) && Contents(b, Relative(a[i].path)) != Contents(a, Relative(a[i].path))
  {
    var b := a[i := a[j]][j := a[i]];
    var p := Relative(a[i].path);
    AtIndex(a, i, |a|);
    AtIndex(b, i, |b|);
    assert a[..|a|] == a && b[..|b|] == b && a[..i] == b[..i];
    var k := |At(a[..i], p)|;
    assert Contents(a, p)[k] == a[i].contents && Contents(b, p)[k] == a[j].contents;
  }

  // The order of enumeration reaches the stream exactly when two files share a normalized path but
  // not their contents.
  lemma {:induction false} OrderMattersExactly(a: seq<SourceFile>)
    requires forall f :: f in a ==> Fits(f)
    ensures (forall b :: multiset(b) == multiset(a) ==> Stream(Sort(b)) == Stream(Sort(a))) <==> !Clash(a)
  {
    hide At, Contents, Stream, Sort, Fits;
    if !Clash(a) {
      forall b | multiset(b) == multiset(a) ensures Stream(Sort(b)) == Stream(Sort(a)) {
        Reordered(a, b);
        forall p ensures Contents(a, p) == Contents(b, p) {
          ReorderedAlike(a, b, p);
        }
        StreamIsContents(a, b);
      }
    } else {
      var i, j :| 0 <= i < j < |a| && Relative(a[i].path) == Relative(a[j].path) && a[i].contents != a[j].contents;
      var b := a[i := a[j]][j := a[i]];
      SwapShows(a, i, j);
      Reordered(a, b);
      StreamIsContents(a, b);
    }
  }

  lemma {:induction false} Reordered(a: seq<SourceFile>, b: seq<SourceFile>)
    requires multiset(a) == multiset(b)
    ensures forall f :: f in b <==> f in a
  {
    forall f ensures f in b <==> f in a {
      assert f in b <==> f in multiset(b);
    }
  }

  // ----- Collecting the files of a directory -----

  datatype Tree = File(contents: seq<byte>) | Directory(entries: seq<Named>) | Special

  datatype Named = Named(name: seq<byte>, tree: Tree)

  function Join(prefix: seq<byte>, name: seq<byte>): seq<byte> {
    prefix + [SLASH] + name
  }

  // The regular files below a path; symbolic links and other special files are skipped.
  ghost predicate Under(t: Tree, prefix: seq<byte>, f: SourceFile)
    decreases t
  {
    match t
    case File(contents) => f == SourceFile(prefix, contents)
    case Directory(entries) => exists i :: 0 <= i < |entries| && Under(entries[i].tree, Join(prefix, entries[i].name), f)
    case Special => false
  }

  function InsertNamed(e: Named, entries: seq<Named>): seq<Named> {
    if entries == [] then [e]
    else if Less(e.name, entries[|entries| - 1].name) then InsertNamed(e, entries[..|entries| - 1]) + [entries[|entries| - 1]]
    else entries + [e]
  }

  // The entries of a directory in order of name.
  function SortNames(entries: seq<Named>): seq<Named> {
    if entries == [] then [] else InsertNamed(entries[|entries| - 1], SortNames(entries[..|entries| - 1]))
  }

  lemma {:induction false} InsertNamedHolds(e: Named, entries: seq<Named>, x: Named)
    ensures x in InsertNamed(e, entries) <==> x == e || x in entries
  {
    if entries != [] {
      InsertNamedHolds(e, entries[..|entries| - 1], x);
    }
  }

  lemma {:induction false} SortNamesHolds(entries: seq<Named>, x: Named)
    ensures x in SortNames(entries) <==> x in entries
  {
    if entries != [] {
      InsertNamedHolds(entries[|entries| - 1], SortNames(entries[..|entries| - 1]), x);
      SortNamesHolds(entries[..|entries| - 1], x);
    }
  }

  // Every entry lies below the directory.
  ghost predicate Inside(directory: Tree, entries: seq<Named>) {
    forall i :: 0 <= i < |entries| ==> entries[i].tree < directory
  }

  lemma {:induction false} SortedInside(directory: Tree)
    requires directory.Directory?
    ensures Inside(directory, SortNames(directory.entries))
  {
    var sorted := SortNames(directory.entries);
    forall i | 0 <= i < |sorted| ensures sorted[i].tree < directory {
      SortNamesHolds(directory.entries, sorted[i]);
      var k :| 0 <= k < |directory.entries| && directory.entries[k] == sorted[i];
    }
  }

  // The regular files below a path, in the order they are pushed.
  ghost function Collected(t: Tree, prefix: seq<byte>): seq<SourceFile>
    decreases t
  {
    match t
    case File(contents) => [SourceFile(prefix, contents)]
    case Directory(entries) =>
      SortedInside(t);
      CollectedFrom(t, SortNames(entries), prefix)
    case Special => []
  }

  ghost function CollectedFrom(directory: Tree, entries: seq<Named>, prefix: seq<byte>): seq<SourceFile>
    requires Inside(directory, entries)
    decreases directory, |entries|
  {
    if entries == [] then []
    else
      var last := entries[|entries| - 1];
      CollectedFrom(directory, entries[..|entries| - 1], prefix) + Collected(last.tree, Join(prefix, last.name))
  }

  lemma {:induction false} CollectedNext(directory: Tree, entries: seq<Named>, n: nat, prefix: seq<byte>)
    requires Inside(directory, entries) && n < |entries|
    ensures var path := Join(prefix, entries[n].name);
            CollectedFrom(directory, entries[..n + 1], prefix) == CollectedFrom(directory, entries[..n], prefix)
              + match entries[n].tree
                case Directory(_) => Collected(entries[n].tree, path)
                case File(contents) => [SourceFile(path, contents)]
                case Special => []
  {
    assert entries[..n + 1][..n] == entries[..n];
  }

  // Exactly the regular files below the path are collected.
  lemma {:induction false} CollectedIsUnder(t: Tree, prefix: seq<byte>, f: SourceFile)
    ensures f in Collected(t, prefix) <==> Under(t, prefix, f)
    decreases t
  {
    if t.Directory? {
      var sorted := SortNames(t.entries);
      SortedInside(t);
      CollectedFromIsUnder(t, sorted, prefix, f);
      if i :| 0 <= i < |sorted| && Under(sorted[i].tree, Join(prefix, sorted[i].name), f) {
        SortNamesHolds(t.entries, sorted[i]);
      }
      if i :| 0 <= i < |t.entries| && Under(t.entries[i].tree, Join(prefix, t.entries[i].name), f) {
        SortNamesHolds(t.entries, t.entries[i]);
      }
    }
  }

  lemma {:induction false} CollectedFromIsUnder(directory: Tree, entries: seq<Named>, prefix: seq<byte>, f: SourceFile)
    requires Inside(directory, entries)
    ensures f in CollectedFrom(directory, entries, prefix)
       <==> exists i :: 0 <= i < |entries| && Under(entries[i].tree, Join(prefix, entries[i].name), f)
    decreases directory, |entries|
  {
    if entries != [] {
      var init, last := entries[..|entries| - 1], entries[|entries| - 1];
      assert forall i :: 0 <= i < |init| ==> init[i] == entries[i];
      CollectedFromIsUnder(directory, init, prefix, f);
      CollectedIsUnder(last.tree, Join(prefix, last.name), f);
    }
  }

  // ----- Listing order -----

  ghost predicate DistinctNames(entries: seq<Named>) {
    forall i, j :: 0 <= i < j < |entries| ==> entries[i].name != entries[j].name
  }

  ghost predicate NamesAscend(entries: seq<Named>) {
    forall i, j :: 0 <= i < j < |entries| ==> Less(entries[i].name, entries[j].name)
  }

  ghost predicate HasName(entries: seq<Named>, name: seq<byte>) {
    exists i :: 0 <= i < |entries| && entries[i].name == name
  }

  lemma {:induction false} InsertNamedAscends(e: Named, entries: seq<Named>)
    requires NamesAscend(entries) && !HasName(entries, e.name)
    ensures NamesAscend(InsertNamed(e, entries))
  {
    if entries != [] {
      var init, last := entries[..|entries| - 1], entries[|entries| - 1];
      if Less(e.name, last.name) {
        assert forall i :: 0 <= i < |init| ==> init[i] == entries[i];
        InsertNamedAscends(e, init);
        var r := InsertNamed(e, init);
        forall i | 0 <= i < |r| ensures Less(r[i].name, last.name) {
          InsertNamedHolds(e, init, r[i]);
        }
      } else {
        LessIsTotal(e.name, last.name);
        forall i | 0 <= i < |entries| ensures Less(entries[i].name, e.name) {
          if i < |entries| - 1 {
            LessIsTransitive(entries[i].name, last.name, e.name);
          }
        }
      }
    }
  }

  // The entries of a directory are visited in strictly ascending order of name.
  lemma {:induction false} SortNamesAscends(entries: seq<Named>)
    requires DistinctNames(entries)
    ensures NamesAscend(SortNames(entries))
  {
    if entries != [] {
      var init, last := entries[..|entries| - 1], entries[|entries| - 1];
      SortNamesAscends(init);
      if i :| 0 <= i < |SortNames(init)| && SortNames(init)[i].name == last.name {
        SortNamesHolds(init, SortNames(init)[i]);
      }
      InsertNamedAscends(last, SortNames(init));
    }
  }

  lemma {:induction false} NamesWithoutLast(entries: seq<Named>, name: seq<byte>)
    requires entries != [] && NamesAscend(entries)
    ensures HasName(entries[..|entries| - 1], name) <==> HasName(entries, name) && name != entries[|entries| - 1].name
  {
    var init, last := entries[..|entries| - 1], entries[|entries| - 1];
    LessIsStrict(last.name, last.name);
    if i :| 0 <= i < |init| && init[i].name == name {
      assert entries[i].name == name;
    }
    if i :| 0 <= i < |entries| && entries[i].name == name && name != last.name {
      assert init[i].name == name;
    }
  }

  lemma {:induction false} SameLastName(x: seq<Named>, y: seq<Named>)
    requires x != [] && y != [] && NamesAscend(x) && NamesAscend(y)
    requires forall name :: HasName(x, name) <==> HasName(y, name)
    ensures x[|x| - 1].name == y[|y| - 1].name
  {
    var p, q := x[|x| - 1].name, y[|y| - 1].name;
    assert HasName(x, p) && HasName(y, q);
    var i :| 0 <= i < |y| && y[i].name == p;
    var j :| 0 <= j < |x| && x[j].name == q;
    LessIsStrict(p, q);
  }

  lemma {:induction false} SameNames(x: seq<Named>, y: seq<Named>)
    requires NamesAscend(x) && NamesAscend(y)
    requires forall name :: HasName(x, name) <==> HasName(y, name)
    ensures |x| == |y| && forall i :: 0 <= i < |x| ==> x[i].name == y[i].name
  {
    if x == [] || y == [] {
      assert x != [] ==> HasName(x, x[0].name);
      assert y != [] ==> HasName(y, y[0].name);
    } else {
      SameLastName(x, y);
      var n, m := |x| - 1, |y| - 1;
      forall name ensures HasName(x[..n], name) <==> HasName(y[..m], name) {
        NamesWithoutLast(x, name);
        NamesWithoutLast(y, name);
      }
      SameNames(x[..n], y[..m]);
      assert forall i :: 0 <= i < n ==> x[i] == x[..n][i] && y[i] == y[..m][i];
    }
  }

  // The same tree, with the entries of each directory listed in any order.
  ghost predicate Relisted(a: Tree, b: Tree)
    decreases a
  {
    match a
    case File(contents) => b == File(contents)
    case Special => b == Special
    case Directory(xs) =>
      && b.Directory? && DistinctNames(xs) && DistinctNames(b.entries)
      && (forall name :: HasName(xs, name) <==> HasName(b.entries, name))
      && forall i, j :: 0 <= i < |xs| && 0 <= j < |b.entries| && xs[i].name == b.entries[j].name ==>
           Relisted(xs[i].tree, b.entries[j].tree)
  }

  lemma {:induction false} SortedNames(entries: seq<Named>, name: seq<byte>)
    ensures HasName(SortNames(entries), name) <==> HasName(entries, name)
  {
    var sorted := SortNames(entries);
    if i :| 0 <= i < |sorted| && sorted[i].name == name {
      SortNamesHolds(entries, sorted[i]);
    }
    if i :| 0 <= i < |entries| && entries[i].name == name {
      SortNamesHolds(entries, entries[i]);
    }
  }

  // Sorting two listings of one directory pairs the entries of equal name.
  lemma {:induction false} SortedPairwise(a: Tree, b: Tree)
    requires a.Directory? && Relisted(a, b)
    ensures var x, y := SortNames(a.entries), SortNames(b.entries);
            |x| == |y| && forall i :: 0 <= i < |x| ==> x[i].name == y[i].name && Relisted(x[i].tree, y[i].tree)
  {
    var x, y := SortNames(a.entries), SortNames(b.entries);
    SortNamesAscends(a.entries);
    SortNamesAscends(b.entries);
    forall name ensures HasName(x, name) <==> HasName(y, name) {
      SortedNames(a.entries, name);
      SortedNames(b.entries, name);
    }
    SameNames(x, y);
    forall i | 0 <= i < |x| ensures Relisted(x[i].tree, y[i].tree) {
      SortNamesHolds(a.entries, x[i]);
      SortNamesHolds(b.entries, y[i]);
      var k :| 0 <= k < |a.entries| && a.entries[k] == x[i];
      var l :| 0 <= l < |b.entries| && b.entries[l] == y[i];
    }
  }

  // The order in which directories list their entries, at any depth, does not reach the collection.
  lemma {:induction false} ListingOrderIsIrrelevant(a: Tree, b: Tree, prefix: seq<byte>)
    requires Relisted(a, b)
    ensures Collected(a, prefix) == Collected(b, prefix)
    decreases a
  {
    if a.Directory? {
      SortedInside(a);
      SortedInside(b);
      SortedPairwise(a, b);
      RelistedFrom(a, SortNames(a.entries), b, SortNames(b.entries), prefix);
    }
  }

  lemma {:induction false} RelistedFrom(a: Tree, xs: seq<Named>, b: Tree, ys: seq<Named>, prefix: seq<byte>)
    requires Inside(a, xs) && Inside(b, ys) && |xs| == |ys|
    requires forall i :: 0 <= i < |xs| ==> xs[i].name == ys[i].name && Relisted(xs[i].tree, ys[i].tree)
    ensures CollectedFrom(a, xs, prefix) == CollectedFrom(b, ys, prefix)
    decreases a, |xs|
  {
    if xs != [] {
      var n := |xs| - 1;
      hide Relisted;
      RelistedFrom(a, xs[..n], b, ys[..n], prefix);
      ListingOrderIsIrrelevant(xs[n].tree, ys[n].tree, Join(prefix, xs[n].name));
    }
  }

  // ----- Two trees with one map and two streams -----

  // A file `b` in the directory `a`, and beside it a file whose name is `a`, a backslash and `b`.
  function SharedPath(inside: seq<byte>, beside: seq<byte>): Tree {
    Directory([Named([97], Directory([Named([98], File(inside))])), Named([97, BACKSLASH, 98], File(beside))])
  }

  lemma {:induction false} SharedPathCollects(x: seq<byte>, y: seq<byte>, prefix: seq<byte>)
    ensures Collected(SharedPath(x, y), prefix)
         == [SourceFile(Join(Join(prefix, [97]), [98]), x), SourceFile(Join(prefix, [97, BACKSLASH, 98]), y)]
  {
    var t := SharedPath(x, y);
    var inner, outer := t.entries[0], t.entries[1];
    assert t.entries[..1] == [inner] && [inner][..0] == [];
    assert SortNames([inner]) == [inner];
    LessIsStrict(inner.name, outer.name);
    assert Less(inner.name, outer.name);
    assert SortNames(t.entries) == [inner, outer];
    SortedInside(t);
    SortedInside(inner.tree);
    var leaf := inner.tree.entries[0];
    assert inner.tree.entries == [leaf] && [leaf][..0] == [] && SortNames([leaf]) == [leaf];
    CollectedSingle(inner.tree, leaf, Join(prefix, inner.name));
    assert Collected(inner.tree, Join(prefix, [97])) == [SourceFile(Join(Join(prefix, [97]), [98]), x)];
    assert [inner, outer][..1] == [inner];
    CollectedSingle(t, inner, prefix);
    assert CollectedFrom(t, [inner, outer], prefix)
        == CollectedFrom(t, [inner], prefix) + Collected(outer.tree, Join(prefix, outer.name));
    assert Collected(t, prefix) == CollectedFrom(t, SortNames(t.entries), prefix);
  }

  lemma {:induction false} CollectedSingle(directory: Tree, e: Named, prefix: seq<byte>)
    requires Inside(directory, [e])
    ensures CollectedFrom(directory, [e], prefix) == Collected(e.tree, Join(prefix, e.name))
  {
    assert [e][..0] == [];
  }

  // The two paths are one after normalization: exchanging the two contents keeps the map of files
  // and changes the stream.
  lemma {:induction false} SharedPathShows(x: seq<byte>, y: seq<byte>, prefix: seq<byte>)
    requires x != y && |x| < WORD_LIMIT && |y| < WORD_LIMIT && |prefix| + 4 < WORD_LIMIT
    ensures var a, b := Collected(SharedPath(x, y), prefix), Collected(SharedPath(y, x), prefix);
            FileMap(a) == FileMap(b) && Stream(Sort(a)) != Stream(Sort(b))
  {
    SharedPathCollects(x, y, prefix);
    SharedPathCollects(y, x, prefix);
    var p, q := Join(Join(prefix, [97]), [98]), Join(prefix, [97, BACKSLASH, 98]);
    assert Relative(p) == Relative(q);
    hide Collected, SharedPath, Stream, Sort, Relative, Join;
    var a, b := [SourceFile(p, x), SourceFile(q, y)], [SourceFile(p, y), SourceFile(q, x)];
    PairAt(p, x, q, y);
    PairAt(p, y, q, x);
    assert Contents(a, Relative(p))[0] == x && Contents(b, Relative(p))[0] == y;
    forall f | f in a || f in b ensures Fits(f) {
    }
    StreamIsContents(a, b);
    forall m ensures m in FileMap(a) <==> m in FileMap(b) {
      PairMap(p, x, q, y, m);
      PairMap(p, y, q, x, m);
    }
  }

  lemma {:induction false} PairMap(p: seq<byte>, x: seq<byte>, q: seq<byte>, y: seq<byte>, m: (seq<byte>, seq<byte>))
    requires Relative(p) == Relative(q)
    ensures m in FileMap([SourceFile(p, x), SourceFile(q, y)]) <==> m.0 == Relative(p) && (m.1 == x || m.1 == y)
  {
    var a := [SourceFile(p, x), SourceFile(q, y)];
    assert a[0] in a && a[1] in a;
  }

  lemma {:induction false} PairAt(p: seq<byte>, x: seq<byte>, q: seq<byte>, y: seq<byte>)
    requires Relative(p) == Relative(q)
    ensures At([SourceFile(p, x), SourceFile(q, y)], Relative(p)) == [SourceFile(p, x), SourceFile(q, y)]
  {
    var f, g := SourceFile(p, x), SourceFile(q, y);
    AtAppend([], f, Relative(p));
    AtAppend([f], g, Relative(p));
    assert [] + [f] == [f] && [f] + [g] == [f, g];
  }

  // ----- The build script's methods -----

  // The shared vector the collection pushes into.
  class FileVector {
    var items: seq<SourceFile>

    constructor (items: seq<SourceFile>)
      ensures this.items == items
    {
      this.items := items;
    }

    // Pushes every regular file below a directory, once.
    method Collect(directory: Tree, prefix: seq<byte>)
      requires directory.Directory?
      modifies this`items
      ensures items == old(items) + Collected(directory, prefix)
      decreases directory
    {
      var entries := SortNames(directory.entries);
      SortedInside(directory);
      assert Collected(directory, prefix) == CollectedFrom(directory, entries, prefix);
      assert CollectedFrom(directory, [], prefix) == [];
      hide SortNames, Relative, CollectedFrom, Collected;
      for n := 0 to |entries|
        invariant items == old(items) + CollectedFrom(directory, entries[..n], prefix)
      {
        var path := Join(prefix, entries[n].name);
        CollectedNext(directory, entries, n, prefix);
        match entries[n].tree {
          case Directory(_) => Collect(entries[n].tree, path);
          case File(contents) => items := items + [SourceFile(path, contents)];
          case Special =>
        }
      }
      assert entries[..|entries|] == entries;
    }

    // Puts the vector in order of relative path; the files of each path stay, in their order.
    method SortByPath()
      modifies this`items
      ensures Ordered(items)
      ensures forall p :: At(items, p) == At(old(items), p)
    {
      SortInOrder(items);
      forall p ensures At(Sort(items), p) == At(items, p) {
        SortIsStable(items, p);
      }
      items := Sort(items);
    }
  }

  // A source root and what its path resolves to, if anything.
  datatype Root = Root(name: seq<byte>, tree: Option<Tree>)

  // A root that is not there is skipped; one that is not a directory cannot be read.
  predicate Readable(r: Root) {
    r.tree.Some? ==> r.tree.value.Directory?
  }

  // The listed root files, then everything below the source roots.
  ghost function Gathered(listed: seq<SourceFile>, roots: seq<Root>): seq<SourceFile> {
    if roots == [] then listed
    else
      var last := roots[|roots| - 1];
      Gathered(listed, roots[..|roots| - 1]) + if last.tree.Some? then Collected(last.tree.value, last.name) else []
  }

  method SourceFiles(listed: seq<SourceFile>, roots: seq<Root>) returns (r: Result<seq<SourceFile>>)
    ensures r.Success? <==> forall i :: 0 <= i < |roots| ==> Readable(roots[i])
    ensures r.Success? ==> Ordered(r.value) && forall p :: At(r.value, p) == At(Gathered(listed, roots), p)
  {
    var vector := new FileVector(listed);
    for n := 0 to |roots|
      invariant fresh(vector)
      invariant forall i :: 0 <= i < n ==> Readable(roots[i])
      invariant vector.items == Gathered(listed, roots[..n])
    {
      assert roots[..n + 1][..n] == roots[..n];
      if roots[n].tree.Some? {
        if !roots[n].tree.value.Directory? {
          return Failure("not a directory");
        }
        vector.Collect(roots[n].tree.value, roots[n].name);
      }
    }
    assert roots[..|roots|] == roots;
    vector.SortByPath();
    return Success(vector.items);
  }

  ghost predicate RelistedRoots(a: seq<Root>, b: seq<Root>) {
    |a| == |b| && forall i :: 0 <= i < |a| ==>
      a[i].name == b[i].name && a[i].tree.Some? == b[i].tree.Some?
      && (a[i].tree.Some? ==> Relisted(a[i].tree.value, b[i].tree.value))
  }

  // Nor does listing order reach what is gathered from all roots.
  lemma {:induction false} RelistedRootsGather(listed: seq<SourceFile>, a: seq<Root>, b: seq<Root>)
    requires RelistedRoots(a, b)
    ensures Gathered(listed, a) == Gathered(listed, b)
  {
    if a != [] {
      var n := |a| - 1;
      hide Relisted, Collected;
      RelistedRootsGather(listed, a[..n], b[..n]);
      if a[n].tree.Some? {
        ListingOrderIsIrrelevant(a[n].tree.value, b[n].tree.value, a[n].name);
      }
    }
  }

  // What the digest is fed determines, and is determined by, the contents that each normalized path
  // holds in the source tree, in order.
  method FingerprintStream(listed: seq<SourceFile>, roots: seq<Root>) returns (r: Result<seq<byte>>)
    ensures r.Success? <==> forall i :: 0 <= i < |roots| ==> Readable(roots[i])
    ensures r.Success? ==> r.value == Stream(Sort(Gathered(listed, roots)))
    ensures r.Success? ==> forall others ::
      (forall f :: f in Gathered(listed, roots) || f in others ==> Fits(f)) ==>
      (r.value == Stream(Sort(others)) <==> forall p :: Contents(Gathered(listed, roots), p) == Contents(others, p))
  {
    hide Gathered, Sort, Fits, Contents, At, Ordered, Readable;
    var files := SourceFiles(listed, roots);
    if files.Failure? {
      return Failure(files.error);
    }
    ghost var gathered := Gathered(listed, roots);
    SortInOrder(gathered);
    forall p ensures At(Sort(gathered), p) == At(files.value, p) {
      SortIsStable(gathered, p);
    }
    OrderedIsUnique(files.value, Sort(gathered));
    var fed := FeedDigest(files.value);
    forall others | forall f :: f in gathered || f in others ==> Fits(f)
      ensures fed == Stream(Sort(others)) <==> forall p :: Contents(gathered, p) == Contents(others, p)
    {
      StreamIsContents(gathered, others);
    }
    return Success(fed);
  }

  lemma {:induction false} StreamFrom(files: seq<SourceFile>, n: nat)
    requires n < |files|
    ensures Stream(files[n..]) == (Framed(Relative(files[n].path)) + Framed(files[n].contents)) + Stream(files[n + 1..])
  {
    assert files[n..][0] == files[n] && files[n..][1..] == files[n + 1..];
  }

  // Feeds the digest file by file.
  method FeedDigest(files: seq<SourceFile>) returns (fed: seq<byte>)
    ensures fed == Stream(files)
  {
    hide Framed, Relative;
    fed := [];
    for n := 0 to |files|
      invariant fed + Stream(files[n..]) == Stream(files)
    {
      StreamFrom(files, n);
      var path, contents := Framed(Relative(files[n].path)), Framed(files[n].contents);
      ghost var rest := Stream(files[n + 1..]);
      assert ((fed + path) + contents) + rest == fed + ((path + contents) + rest);
      fed := fed + path;
      fed := fed + contents;
    }
    assert fed + [] == fed;
  }
}
