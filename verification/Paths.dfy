/** The path algebra of src/tree.rs: normalisation, validation and conflict-copy names. */
module Paths {
  import opened Bytes

  type Path = bytes

  const SLASH: byte := 47
  const BACKSLASH: byte := 92
  const DOT: byte := 46
  const COLON: byte := 58
  // " (conflict from "
  const CONFLICT_FROM: bytes := [32, 40, 99, 111, 110, 102, 108, 105, 99, 116, 32, 102, 114, 111, 109, 32]
  const CLOSE: byte := 41
  // "remote"
  const REMOTE: bytes := [114, 101, 109, 111, 116, 101]

  predicate Alpha(b: byte) { 65 <= b <= 90 || 97 <= b <= 122 }

  predicate LabelByte(b: byte) { Alpha(b) || 48 <= b <= 57 || b == 45 || b == 95 }

  // ---------------------------------------------------------------------------------------------
  // Searching and splitting
  // ---------------------------------------------------------------------------------------------

  /** No byte of `s` from index `i` on is `c`. */
  predicate LacksFrom(s: bytes, c: byte, i: nat) { forall j :: i <= j < |s| ==> s[j] != c }

  /** `rfind`: the last index of `c`. */
  function LastIndex(s: bytes, c: byte): (r: Option<nat>)
    ensures r.Some? ==> r.value < |s| && s[r.value] == c && LacksFrom(s, c, r.value + 1)
    ensures r.None? ==> LacksFrom(s, c, 0)
  {
    if s == [] then None
    else if s[|s| - 1] == c then Some(|s| - 1)
    else LastIndex(s[..|s| - 1], c)
  }

  /** `split('/')` */
  function Split(s: bytes): (segs: seq<bytes>)
    ensures |segs| >= 1
  {
    if s == [] then [[]]
    else
      var rest := Split(s[1..]);
      if s[0] == SLASH then [[]] + rest else [[s[0]] + rest[0]] + rest[1..]
  }

  function Attach(c: byte, segs: seq<bytes>): seq<bytes>
    requires segs != []
  {
    if c == SLASH then [[]] + segs else [[c] + segs[0]] + segs[1..]
  }

  lemma SplitStep(s: bytes, front: seq<bytes>, back: seq<bytes>)
    requires s != [] && front != [] && Split(s[1..]) == front + back
    ensures Split(s) == Attach(s[0], front) + back
  {
    if s[0] == SLASH {
      Assoc([[]], front, back);
    } else {
      assert (front + back)[1..] == front[1..] + back;
      Assoc([[s[0]] + front[0]], front[1..], back);
    }
  }

  lemma {:induction false} SplitJoin(a: bytes, b: bytes)
    ensures Split(a + [SLASH] + b) == Split(a) + Split(b)
  {
    var s := a + [SLASH] + b;
    if a == [] {
      assert s[1..] == b;
    } else {
      SplitJoin(a[1..], b);
      assert s[1..] == a[1..] + [SLASH] + b;
      SplitStep(s, Split(a[1..]), Split(b));
      SplitStep(a, Split(a[1..]), []);
    }
  }

  lemma {:induction false} SplitNoSlash(s: bytes)
    requires LacksFrom(s, SLASH, 0)
    ensures Split(s) == [s]
  {
    if s != [] {
      SplitNoSlash(s[1..]);
      assert s == [s[0]] + s[1..];
    }
  }

  // ---------------------------------------------------------------------------------------------
  // validate_path, normalize_path, normalize_and_validate
  // ---------------------------------------------------------------------------------------------

  predicate GoodSegment(s: bytes) { s != [] && s != [DOT] && s != [DOT, DOT] }

  predicate GoodSegments(p: bytes) {
    forall i :: 0 <= i < |Split(p)| ==> GoodSegment(Split(p)[i])
  }

  predicate DriveAbsolute(p: bytes) { |p| >= 2 && p[1] == COLON && Alpha(p[0]) }

  /** `validate_path` accepts `p`. */
  predicate ValidPath(p: Path) {
    && p != []
    && 0 !in p
    && BACKSLASH !in p
    && p[0] != SLASH
    && !DriveAbsolute(p)
    && GoodSegments(p)
  }

  /** A key a tree may hold on the wire: a Rust string that `validate_path` accepts. */
  predicate WirePath(p: Path) { ValidUtf8(p) && ValidPath(p) }

  function ReplaceBackslash(p: bytes): (r: bytes)
    ensures |r| == |p| && (BACKSLASH !in p ==> r == p)
  {
    seq(|p|, i requires 0 <= i < |p| => if p[i] == BACKSLASH then SLASH else p[i])
  }

  function TrimDotSlash(p: bytes): bytes {
    if |p| >= 2 && p[0] == DOT && p[1] == SLASH then TrimDotSlash(p[2..]) else p
  }

  function TrimSlashStart(p: bytes): bytes {
    if p != [] && p[0] == SLASH then TrimSlashStart(p[1..]) else p
  }

  function TrimSlashEnd(p: bytes): bytes {
    if p != [] && p[|p| - 1] == SLASH then TrimSlashEnd(p[..|p| - 1]) else p
  }

  function NormalizePath(p: bytes): Path {
    TrimSlashEnd(TrimSlashStart(TrimDotSlash(ReplaceBackslash(p))))
  }

  function NormalizeAndValidate(p: bytes): Option<Path> {
    if 0 in p || BACKSLASH in p then None
    else if ValidPath(NormalizePath(p)) then Some(NormalizePath(p)) else None
  }

  /** A valid path is already normal. */
  lemma ValidIsNormal(p: Path)
    requires ValidPath(p)
    ensures NormalizePath(p) == p
  {
    if |p| >= 2 && p[0] == DOT && p[1] == SLASH {
      DotSlashSegment(p);
    }
    NoTrailingSlash(p);
  }

  lemma DotSlashSegment(p: bytes)
    requires |p| >= 2 && p[0] == DOT && p[1] == SLASH
    ensures Split(p)[0] == [DOT]
  {
    assert p == [DOT] + [SLASH] + p[2..];
    SplitJoin([DOT], p[2..]);
    SplitNoSlash([DOT]);
  }

  lemma NoTrailingSlash(p: Path)
    requires p != [] && GoodSegments(p)
    ensures p[|p| - 1] != SLASH
  {
    if p[|p| - 1] == SLASH {
      TrailingSlashSegment(p);
    }
  }

  lemma TrailingSlashSegment(p: bytes)
    requires p != [] && p[|p| - 1] == SLASH
    ensures Split(p)[|Split(p)| - 1] == []
  {
    assert p == p[..|p| - 1] + [SLASH] + [];
    SplitJoin(p[..|p| - 1], []);
  }

  /** What the entry points accept is a fixed point: normalising it again changes nothing. */
  lemma NormalizeAndValidateIdempotent(p: bytes)
    ensures var r := NormalizeAndValidate(p);
            r.Some? ==> ValidPath(r.value) && NormalizeAndValidate(r.value) == r
  {
    var r := NormalizeAndValidate(p);
    if r.Some? {
      ValidIsNormal(r.value);
    }
  }

  /** `normalize_path` alone is not idempotent: "/./a" gives "./a", which gives "a". */
  lemma NormalizeAloneIsNotIdempotent()
    ensures NormalizePath([47, 46, 47, 97]) == [46, 47, 97]
    ensures NormalizePath([46, 47, 97]) == [97]
  {
    var p, q := [47, 46, 47, 97], [46, 47, 97];
    assert ReplaceBackslash(p) == p && ReplaceBackslash(q) == q;
    assert p[1..] == q && q[2..] == [97];
    assert TrimSlashStart(q) == q && TrimSlashEnd(q) == q;
  }

  /** What is left of a path when everything `normalize_path` takes off its front is gone. */
  function Front(p: bytes): bytes { TrimSlashStart(TrimDotSlash(ReplaceBackslash(p))) }

  /** Normalising twice is normalising once exactly when what is left of the front does not start with "./" again,
      or holds nothing but slashes after the dot. */
  lemma NormalizeTwiceExact(p: bytes)
    ensures NormalizePath(NormalizePath(p)) == NormalizePath(p) <==>
              var x := Front(p);
              !(|x| >= 2 && x[0] == DOT && x[1] == SLASH) || forall i :: 1 <= i < |x| ==> x[i] == SLASH
  {
    var x, q := Front(p), NormalizePath(p);
    TrimSlashStartStops(TrimDotSlash(ReplaceBackslash(p)));
    TrimSlashEndKeeps(x);
    FrontLacks(ReplaceBackslash(p), BACKSLASH);
    assert BACKSLASH !in q && (q == [] || q[0] != SLASH);
    if |q| >= 2 && q[0] == DOT && q[1] == SLASH {
      TrimsShorten(q);
    }
  }

  lemma {:induction false} TrimSlashStartStops(p: bytes)
    ensures var r := TrimSlashStart(p); r == [] || r[0] != SLASH
  {
    if p != [] && p[0] == SLASH { TrimSlashStartStops(p[1..]); }
  }

  /** Trimming the end keeps a front that ends in no slash; all that is gone is slashes. */
  lemma {:induction false} TrimSlashEndKeeps(p: bytes)
    ensures var r := TrimSlashEnd(p);
            && r <= p && (r == [] || r[|r| - 1] != SLASH) && TrimSlashEnd(r) == r
            && forall i :: |r| <= i < |p| ==> p[i] == SLASH
    decreases |p|
  {
    if p != [] && p[|p| - 1] == SLASH { TrimSlashEndKeeps(p[..|p| - 1]); }
  }

  lemma {:induction false} FrontLacks(p: bytes, c: byte)
    requires c !in p
    ensures c !in TrimDotSlash(p) && c !in TrimSlashStart(TrimDotSlash(p))
    decreases |p|
  {
    if |p| >= 2 && p[0] == DOT && p[1] == SLASH {
      FrontLacks(p[2..], c);
    } else {
      StartLacks(p, c);
    }
  }

  lemma {:induction false} StartLacks(p: bytes, c: byte)
    requires c !in p
    ensures c !in TrimSlashStart(p)
  {
    if p != [] && p[0] == SLASH { StartLacks(p[1..], c); }
  }

  /** A leading "./" makes the result shorter. */
  lemma TrimsShorten(q: bytes)
    requires |q| >= 2 && q[0] == DOT && q[1] == SLASH && BACKSLASH !in q
    ensures |NormalizePath(q)| < |q|
  {
    TrimDotSlashShorter(q[2..]);
    TrimStartShorter(TrimDotSlash(q));
    TrimSlashEndKeeps(TrimSlashStart(TrimDotSlash(q)));
  }

  lemma {:induction false} TrimDotSlashShorter(p: bytes)
    ensures |TrimDotSlash(p)| <= |p|
  {
    if |p| >= 2 && p[0] == DOT && p[1] == SLASH { TrimDotSlashShorter(p[2..]); }
  }

  lemma {:induction false} TrimStartShorter(p: bytes)
    ensures |TrimSlashStart(p)| <= |p|
  {
    if p != [] && p[0] == SLASH { TrimStartShorter(p[1..]); }
  }

  // ---------------------------------------------------------------------------------------------
  // UTF-8 survives normalisation
  // ---------------------------------------------------------------------------------------------

  /** Valid text may be cut on either side of an ASCII byte. */
  lemma CutAtAscii(s: bytes, i: nat)
    requires ValidUtf8(s) && i <= |s|
    requires i == 0 || i == |s| || s[i] < 0x80 || s[i - 1] < 0x80
    ensures ValidUtf8(s[..i]) && ValidUtf8(s[i..])
  {
    if 0 < i < |s| && s[i] >= 0x80 {
      Utf8Split(s, i - 1);
      var t := s[i - 1..];
      assert CharWidth(t) == 1 && t[1..] == s[i..];
      assert CharWidth(s[i..]) != 0;
    }
    Utf8Split(s, i);
  }

  lemma {:induction false} TrimDotSlashUtf8(p: bytes)
    requires ValidUtf8(p)
    ensures ValidUtf8(TrimDotSlash(p))
  {
    if |p| >= 2 && p[0] == DOT && p[1] == SLASH {
      CutAtAscii(p, 2);
      TrimDotSlashUtf8(p[2..]);
    }
  }

  lemma {:induction false} TrimSlashStartUtf8(p: bytes)
    requires ValidUtf8(p)
    ensures ValidUtf8(TrimSlashStart(p))
  {
    if p != [] && p[0] == SLASH {
      CutAtAscii(p, 1);
      TrimSlashStartUtf8(p[1..]);
    }
  }

  lemma {:induction false} TrimSlashEndUtf8(p: bytes)
    requires ValidUtf8(p)
    ensures ValidUtf8(TrimSlashEnd(p))
  {
    if p != [] && p[|p| - 1] == SLASH {
      CutAtAscii(p, |p| - 1);
      TrimSlashEndUtf8(p[..|p| - 1]);
    }
  }

  /** What the entry points make of a string is a key the wire can carry. */
  lemma NormalizedIsWirePath(p: bytes)
    requires ValidUtf8(p)
    ensures NormalizeAndValidate(p).Some? ==> WirePath(NormalizeAndValidate(p).value)
  {
    if NormalizeAndValidate(p).Some? {
      TrimDotSlashUtf8(p);
      TrimSlashStartUtf8(TrimDotSlash(p));
      TrimSlashEndUtf8(TrimSlashStart(TrimDotSlash(p)));
    }
  }

  // ---------------------------------------------------------------------------------------------
  // Conflict-copy names
  // ---------------------------------------------------------------------------------------------

  /** Where `conflict_path_name` cuts a path. */
  datatype Parts = Parts(dir: bytes, stem: bytes, ext: bytes)

  /** How many bytes of a path lead up to its file name. */
  function DirLength(path: Path): (n: nat)
    ensures n <= |path| && (n > 0 ==> path[n - 1] == SLASH) && LacksFrom(path, SLASH, n)
  {
    match LastIndex(path, SLASH)
    case Some(i) => i + 1
    case None => 0
  }

  /** How many bytes of a file name stand before its extension. */
  function StemLength(file: bytes): (n: nat)
    ensures n <= |file|
    ensures n < |file| ==> n > 0 && file[n] == DOT && LacksFrom(file, DOT, n + 1)
    ensures n == |file| ==> LacksFrom(file, DOT, 1)
  {
    match LastIndex(file, DOT)
    case Some(i) => if i > 0 then i else |file|
    case None => |file|
  }

  function Cut(path: Path): Parts {
    var n := DirLength(path);
    var file := path[n..];
    Parts(path[..n], file[..StemLength(file)], file[StemLength(file)..])
  }

  function Insert(tag: bytes): bytes { CONFLICT_FROM + tag + [CLOSE] }

  /** `path` with `ins` between its stem and its extension. */
  function Splice(path: Path, ins: bytes): Path {
    var c := Cut(path);
    c.dir + c.stem + ins + c.ext
  }

  /** `conflict_path_name` */
  function ConflictName(path: Path, tag: bytes): Path { Splice(path, Insert(tag)) }

  predicate CleanLabel(tag: bytes) {
    0 < |tag| <= 32 && forall i :: 0 <= i < |tag| ==> LabelByte(tag[i])
  }

  /** One output byte for each character; a character is known by its leading byte. */
  function SanitizeChars(s: bytes): (r: bytes)
    ensures forall i :: 0 <= i < |r| ==> LabelByte(r[i])
  {
    if s == [] then []
    else if Cont(s[0]) then SanitizeChars(s[1..])
    else [if LabelByte(s[0]) then s[0] else 95] + SanitizeChars(s[1..])
  }

  function SanitizeLabel(tag: bytes): (r: bytes)
    ensures CleanLabel(r)
  {
    var s := SanitizeChars(tag);
    var t := if |s| > 32 then s[..32] else s;
    if t == [] then REMOTE else t
  }

  /** ASCII without NUL, slash, dot, backslash or colon. */
  predicate PlainByte(b: byte) { 0 < b < 0x80 && b != SLASH && b != DOT && b != BACKSLASH && b != COLON }

  predicate Plain(ins: bytes) { |ins| > 2 && forall i :: 0 <= i < |ins| ==> PlainByte(ins[i]) }

  lemma InsertIsPlain(tag: bytes)
    requires CleanLabel(tag)
    ensures Plain(Insert(tag))
  {
    var ins := Insert(tag);
    forall i | 0 <= i < |ins|
      ensures PlainByte(ins[i])
    {
      if i < 16 {
        assert ins[i] == CONFLICT_FROM[i];
      } else if i < 16 + |tag| {
        assert ins[i] == tag[i - 16];
      }
    }
  }

  /** `c` cuts `p` after its last slash and before the last dot of the file name that does not start it. */
  predicate IsCut(p: Path, c: Parts) {
    && p == c.dir + c.stem + c.ext
    && (c.dir != [] ==> c.dir[|c.dir| - 1] == SLASH)
    && LacksFrom(c.stem, SLASH, 0) && LacksFrom(c.ext, SLASH, 0)
    && (c.ext != [] ==> c.stem != [] && c.ext[0] == DOT && LacksFrom(c.ext, DOT, 1))
    && (c.ext == [] && c.stem != [] ==> LacksFrom(c.stem, DOT, 1))
  }

  lemma LacksSlices(s: bytes, c: byte, i: nat)
    requires i <= |s| && LacksFrom(s, c, 0)
    ensures LacksFrom(s[..i], c, 0) && LacksFrom(s[i..], c, 0)
  {
  }

  lemma FileIsCut(file: bytes)
    requires LacksFrom(file, SLASH, 0)
    ensures IsCut(file, Parts([], file[..StemLength(file)], file[StemLength(file)..]))
  {
    var m := StemLength(file);
    LacksSlices(file, SLASH, m);
    assert [] + file[..m] == file[..m];
    TakeDrop(file, m);
  }

  lemma CutIsCut(p: Path)
    ensures IsCut(p, Cut(p))
  {
    var n := DirLength(p);
    var file := p[n..];
    assert LacksFrom(file, SLASH, 0);
    FileIsCut(file);
    var c := Cut(p);
    TakeDrop(p, n);
    TakeDrop(file, |c.stem|);
    Assoc(c.dir, c.stem, c.ext);
  }

  /** A path is cut in one way only. */
  lemma CutUnique(p: Path, c: Parts)
    requires IsCut(p, c)
    ensures Cut(p) == c
  {
    var file, n := c.stem + c.ext, |c.dir|;
    assert p == c.dir + file && LacksFrom(file, SLASH, 0);
    assert DirLength(p) == n by {
      assert LacksFrom(p, SLASH, n) && (n > 0 ==> p[n - 1] == SLASH);
    }
    assert p[n..] == file && p[..n] == c.dir;
    assert StemLength(file) == |c.stem| by {
      if c.ext != [] {
        assert file[|c.stem|] == DOT && LacksFrom(file, DOT, |c.stem| + 1);
      } else {
        assert file == c.stem;
      }
    }
    assert file[..|c.stem|] == c.stem && file[|c.stem|..] == c.ext;
  }

  lemma LacksConcat(a: bytes, b: bytes, c: byte, i: nat)
    requires i <= |a| && LacksFrom(a, c, i) && LacksFrom(b, c, 0)
    ensures LacksFrom(a + b, c, i)
  {
  }

  lemma SpliceIsCut(p: Path, c: Parts, ins: bytes)
    requires IsCut(p, c) && Plain(ins)
    ensures IsCut(c.dir + c.stem + ins + c.ext, Parts(c.dir, c.stem + ins, c.ext))
  {
    Assoc(c.dir, c.stem, ins);
    LacksConcat(c.stem, ins, SLASH, 0);
    if c.ext == [] && c.stem != [] {
      LacksConcat(c.stem, ins, DOT, 1);
    }
  }

  /** A conflict copy is cut where its original was. */
  lemma CutOfSplice(p: Path, ins: bytes)
    requires Plain(ins)
    ensures var c := Cut(p); Cut(Splice(p, ins)) == Parts(c.dir, c.stem + ins, c.ext)
  {
    var c := Cut(p);
    CutIsCut(p);
    SpliceIsCut(p, c, ins);
    CutUnique(Splice(p, ins), Parts(c.dir, c.stem + ins, c.ext));
  }

  /** Distinct paths get distinct conflict copies under one label. */
  lemma ConflictNameInjective(p: Path, q: Path, tag: bytes)
    requires CleanLabel(tag)
    requires ConflictName(p, tag) == ConflictName(q, tag)
    ensures p == q
  {
    var ins := Insert(tag);
    InsertIsPlain(tag);
    CutOfSplice(p, ins);
    CutOfSplice(q, ins);
    CutIsCut(p);
    CutIsCut(q);
    SameStem(Cut(p).stem, Cut(q).stem, ins);
  }

  lemma SameStem(a: bytes, b: bytes, ins: bytes)
    requires a + ins == b + ins
    ensures a == b
  {
    assert |a + ins| == |b + ins|;
    CutConcat(a, ins);
    CutConcat(b, ins);
  }

  /** The conflict copy of a key the wire can carry is such a key again. */
  lemma ConflictNameIsWirePath(p: Path, tag: bytes)
    requires WirePath(p) && CleanLabel(tag)
    ensures WirePath(ConflictName(p, tag))
  {
    InsertIsPlain(tag);
    CutIsCut(p);
    SpliceUtf8(p, Cut(p), Insert(tag));
    SpliceSegments(p, Cut(p), Insert(tag));
    SpliceBytes(p, Cut(p), Insert(tag));
  }

  lemma SpliceBytes(p: Path, c: Parts, ins: bytes)
    requires ValidPath(p) && IsCut(p, c) && Plain(ins)
    ensures var n := c.dir + c.stem + ins + c.ext;
            && n != [] && 0 !in n && BACKSLASH !in n && n[0] != SLASH && !DriveAbsolute(n)
  {
    NoTrailingSlash(p);
    var front := c.dir + c.stem;
    assert p == front + c.ext;
    assert front != [] && front[0] == p[0];
    assert |front| > 1 ==> front[1] == p[1];
    assert forall b :: b in front || b in c.ext ==> b in p;
    var n := front + ins + c.ext;
    assert forall b :: b in n ==> b in front || b in ins || b in c.ext;
    assert n[0] == front[0] && n[1] == (if |front| > 1 then front[1] else ins[0]);
  }

  lemma SpliceSegments(p: Path, c: Parts, ins: bytes)
    requires ValidPath(p) && IsCut(p, c) && Plain(ins)
    ensures GoodSegments(c.dir + c.stem + ins + c.ext)
  {
    SpliceIsCut(p, c, ins);
    var file := c.stem + ins + c.ext;
    LacksConcat(c.stem + ins, c.ext, SLASH, 0);
    SplitNoSlash(file);
    Assoc(c.dir, c.stem, ins);
    Assoc(c.dir, c.stem + ins, c.ext);
    Assoc(c.dir, c.stem, c.ext);
    assert |file| > 2;
    DirSegments(c.dir, c.stem + c.ext, file);
  }

  /** The segments of a directory part stay good before another good file name. */
  lemma DirSegments(dir: bytes, file: bytes, file': bytes)
    requires dir != [] ==> dir[|dir| - 1] == SLASH
    requires GoodSegments(dir + file) && GoodSegment(file') && Split(file') == [file']
    ensures GoodSegments(dir + file')
  {
    if dir == [] {
      assert dir + file' == file';
    } else {
      var d := dir[..|dir| - 1];
      assert dir == d + [SLASH];
      SplitJoin(d, file);
      SplitJoin(d, file');
      assert forall i :: 0 <= i < |Split(d)| ==> Split(dir + file)[i] == Split(d)[i];
    }
  }

  lemma SpliceUtf8(p: Path, c: Parts, ins: bytes)
    requires ValidUtf8(p) && IsCut(p, c) && Plain(ins)
    ensures ValidUtf8(c.dir + c.stem + ins + c.ext)
  {
    var front := c.dir + c.stem;
    CutConcat(front, c.ext);
    assert c.ext != [] ==> p[|front|] == c.ext[0];
    CutAtAscii(p, |front|);
    AsciiIsUtf8(ins);
    Utf8Concat(front, ins);
    Utf8Concat(front + ins, c.ext);
  }
}
