/** What module Paths accepts and makes, said on bytes: 46 is a dot, 47 a slash, 58 a colon, 92 a backslash. */
module PathRules {
  import opened Bytes
  import opened Texts
  import opened Paths

  // ---------------------------------------------------------------------------------------------
  // Segments
  // ---------------------------------------------------------------------------------------------

  /** A stretch of `p` between two slashes, or a slash and an end of `p`. */
  predicate Bounded(p: bytes, i: nat, j: nat) {
    i <= j <= |p| && (i == 0 || p[i - 1] == 47) && (j == |p| || p[j] == 47)
  }

  /** Every segment is such a stretch. */
  lemma {:induction false} SegmentStands(p: bytes, k: nat) returns (i: nat, j: nat)
    requires k < |Split(p)|
    ensures Bounded(p, i, j) && p[i..j] == Split(p)[k] && (i == 0 <==> k == 0)
    decreases |p|
  {
    if p == [] { return 0, 0; }
    if p[0] == SLASH && k == 0 { return 0, 0; }
    var i', j' := SegmentStands(p[1..], if p[0] == SLASH then k - 1 else k);
    assert p[1..][i'..j'] == p[i' + 1..j' + 1];
    if p[0] != SLASH && k == 0 {
      assert p[0..j' + 1] == [p[0]] + p[1..j' + 1];
      return 0, j' + 1;
    }
    return i' + 1, j' + 1;
  }

  /** Every such stretch without a slash is a segment. */
  lemma StretchIsSegment(p: bytes, i: nat, j: nat)
    requires Bounded(p, i, j) && 47 !in p[i..j]
    ensures p[i..j] in Split(p)
  {
    var s := p[i..j];
    SplitNoSlash(s);
    var back := if j == |p| then s else s + [SLASH] + p[j + 1..];
    assert p[i..] == back;
    if j < |p| { SplitJoin(s, p[j + 1..]); }
    assert Split(back)[0] == s;
    if i > 0 {
      assert p == p[..i - 1] + [SLASH] + back;
      SplitJoin(p[..i - 1], back);
      assert Split(p)[|Split(p[..i - 1])|] == s;
    } else {
      assert p == back;
    }
  }

  lemma NoBadStretch(q: bytes, i: nat, j: nat)
    requires GoodSegments(q) && Bounded(q, i, j)
    ensures q[i..j] != [] && q[i..j] != [46] && q[i..j] != [46, 46]
  {
    if 47 in q[i..j] {
      assert q[i..j] != [];
    } else {
      StretchIsSegment(q, i, j);
    }
  }

  /** What the entry points make of a path: neither end is a slash, no segment is empty, "." or "..", there is no NUL,
      no backslash and no drive prefix. */
  lemma AcceptedIsSafe(p: bytes, q: bytes)
    requires NormalizeAndValidate(p) == Some(q)
    ensures q != [] && q[0] != 47 && q[|q| - 1] != 47 && 0 !in q && 92 !in q
    ensures !(|q| >= 2 && q[1] == 58 && (65 <= q[0] <= 90 || 97 <= q[0] <= 122))
    ensures forall i, j :: 0 <= i <= j <= |q| && (i == 0 || q[i - 1] == 47) && (j == |q| || q[j] == 47) ==>
              q[i..j] != [] && q[i..j] != [46] && q[i..j] != [46, 46]
  {
    NoTrailingSlash(q);
    forall i, j | 0 <= i <= j <= |q| && (i == 0 || q[i - 1] == 47) && (j == |q| || q[j] == 47)
      ensures q[i..j] != [] && q[i..j] != [46] && q[i..j] != [46, 46]
    {
      NoBadStretch(q, i, j);
    }
  }

  lemma SafeIsValid(q: bytes)
    requires q != [] && q[0] != 47 && 0 !in q && 92 !in q
    requires !(|q| >= 2 && q[1] == 58 && (65 <= q[0] <= 90 || 97 <= q[0] <= 122))
    requires forall i, j :: 0 <= i <= j <= |q| && (i == 0 || q[i - 1] == 47) && (j == |q| || q[j] == 47) ==>
               q[i..j] != [] && q[i..j] != [46] && q[i..j] != [46, 46]
    ensures ValidPath(q)
  {
    forall k | 0 <= k < |Split(q)| ensures GoodSegment(Split(q)[k]) {
      var i, j := SegmentStands(q, k);
    }
  }

  /** A path that is free of all this is taken as it is. */
  lemma SafeIsAccepted(q: bytes)
    requires q != [] && q[0] != 47 && 0 !in q && 92 !in q
    requires !(|q| >= 2 && q[1] == 58 && (65 <= q[0] <= 90 || 97 <= q[0] <= 122))
    requires forall i, j :: 0 <= i <= j <= |q| && (i == 0 || q[i - 1] == 47) && (j == |q| || q[j] == 47) ==>
               q[i..j] != [] && q[i..j] != [46] && q[i..j] != [46, 46]
    ensures NormalizeAndValidate(q) == Some(q)
  {
    SafeIsValid(q);
    ValidIsNormal(q);
  }

  // ---------------------------------------------------------------------------------------------
  // Normalising
  // ---------------------------------------------------------------------------------------------

  function Times(s: bytes, n: nat): bytes { if n == 0 then [] else s + Times(s, n - 1) }

  lemma {:induction false} DotSlashesGone(p: bytes) returns (k: nat)
    ensures p == Times([46, 47], k) + TrimDotSlash(p)
    decreases |p|
  {
    k := 0;
    if |p| >= 2 && p[0] == DOT && p[1] == SLASH {
      k := DotSlashesGone(p[2..]);
      assert p == [46, 47] + p[2..];
      Assoc([46, 47], Times([46, 47], k), TrimDotSlash(p[2..]));
      k := k + 1;
    } else {
      assert [] + p == p;
    }
  }

  lemma {:induction false} SlashesGone(p: bytes) returns (m: nat)
    ensures p == Times([47], m) + TrimSlashStart(p)
    decreases |p|
  {
    m := 0;
    if p != [] && p[0] == SLASH {
      m := SlashesGone(p[1..]);
      assert p == [47] + p[1..];
      Assoc([47], Times([47], m), TrimSlashStart(p[1..]));
      m := m + 1;
    } else {
      assert [] + p == p;
    }
  }

  lemma {:induction false} TimesBack(s: bytes, n: nat)
    ensures s + Times(s, n) == Times(s, n) + s
  {
    if n > 0 {
      TimesBack(s, n - 1);
      Assoc(s, Times(s, n - 1), s);
    }
  }

  lemma {:induction false} EndSlashesGone(p: bytes) returns (n: nat)
    ensures p == TrimSlashEnd(p) + Times([47], n)
    decreases |p|
  {
    n := 0;
    if p != [] && p[|p| - 1] == SLASH {
      n := EndSlashesGone(p[..|p| - 1]);
      assert p == p[..|p| - 1] + [47];
      TimesBack([47], n);
      Assoc(TrimSlashEnd(p), Times([47], n), [47]);
      n := n + 1;
    } else {
      assert p + [] == p;
    }
  }

  lemma {:induction false} TrimsDotSlashes(k: nat, x: bytes)
    ensures TrimDotSlash(Times([46, 47], k) + x) == TrimDotSlash(x)
  {
    if k == 0 {
      assert [] + x == x;
    } else {
      var p := Times([46, 47], k) + x;
      Assoc([46, 47], Times([46, 47], k - 1), x);
      assert p == [46, 47] + (Times([46, 47], k - 1) + x);
      assert p[2..] == Times([46, 47], k - 1) + x;
      TrimsDotSlashes(k - 1, x);
    }
  }

  lemma {:induction false} TrimsSlashes(m: nat, x: bytes)
    ensures TrimSlashStart(Times([47], m) + x) == TrimSlashStart(x)
  {
    if m == 0 {
      assert [] + x == x;
    } else {
      var p := Times([47], m) + x;
      Assoc([47], Times([47], m - 1), x);
      assert p == [47] + (Times([47], m - 1) + x);
      assert p[1..] == Times([47], m - 1) + x;
      TrimsSlashes(m - 1, x);
    }
  }

  lemma {:induction false} TrimsEndSlashes(x: bytes, n: nat)
    ensures TrimSlashEnd(x + Times([47], n)) == TrimSlashEnd(x)
  {
    if n == 0 {
      assert x + [] == x;
    } else {
      var p := x + Times([47], n);
      TimesBack([47], n - 1);
      Assoc(x, Times([47], n - 1), [47]);
      assert p == x + Times([47], n - 1) + [47];
      assert p[..|p| - 1] == x + Times([47], n - 1);
      TrimsEndSlashes(x, n - 1);
    }
  }

  /** The entry points take off leading "./" and then slashes on both sides, and nothing else: `p` is accepted as `q`
      if and only if `q` is accepted as it is and `p` is `q` behind some "./" and some slashes and before some
      slashes. */
  lemma NormalizeExactly(p: bytes, q: bytes)
    ensures NormalizeAndValidate(p) == Some(q) <==>
              && NormalizeAndValidate(q) == Some(q)
              && exists k: nat, m: nat, n: nat :: p == Times([46, 47], k) + Times([47], m) + q + Times([47], n)
  {
    if NormalizeAndValidate(p) == Some(q) {
      NormalizeAndValidateIdempotent(p);
      var k := DotSlashesGone(p);
      var m := SlashesGone(TrimDotSlash(p));
      var x := TrimSlashStart(TrimDotSlash(p));
      var n := EndSlashesGone(x);
      Assoc(Times([46, 47], k), Times([47], m), x);
      Assoc(Times([46, 47], k) + Times([47], m), q, Times([47], n));
      assert p == Times([46, 47], k) + Times([47], m) + q + Times([47], n);
    }
    if NormalizeAndValidate(q) == Some(q) {
      forall k: nat, m: nat, n: nat | p == Times([46, 47], k) + Times([47], m) + q + Times([47], n)
        ensures NormalizeAndValidate(p) == Some(q)
      {
        PaddedNormal(p, q, k, m, n);
      }
    }
  }

  lemma PaddedNormal(p: bytes, q: bytes, k: nat, m: nat, n: nat)
    requires NormalizeAndValidate(q) == Some(q)
    requires p == Times([46, 47], k) + Times([47], m) + q + Times([47], n)
    ensures NormalizeAndValidate(p) == Some(q)
  {
    AcceptedIsSafe(q, q);
    TimesLacks([46, 47], k);
    TimesLacks([47], m);
    TimesLacks([47], n);
    var x := q + Times([47], n);
    Assoc(Times([47], m), q, Times([47], n));
    Assoc(Times([46, 47], k), Times([47], m), x);
    Assoc(Times([46, 47], k) + Times([47], m), q, Times([47], n));
    assert p == Times([46, 47], k) + (Times([47], m) + x);
    TrimsDotSlashes(k, Times([47], m) + x);
    NoDotSlash(q, m, n);
    TrimsSlashes(m, x);
    assert x[0] == q[0];
    TrimsEndSlashes(q, n);
  }

  lemma NoDotSlash(q: bytes, m: nat, n: nat)
    requires NormalizeAndValidate(q) == Some(q)
    ensures var y := Times([47], m) + (q + Times([47], n)); TrimDotSlash(y) == y
  {
    AcceptedIsSafe(q, q);
    var x := q + Times([47], n);
    if m > 0 {
      assert (Times([47], m) + x)[0] == 47;
    } else {
      assert [] + x == x;
      if q[0] == 46 {
        assert q[0..1] == [46];
        assert |q| >= 2 && q[1] != 47;
        assert x[1] == q[1];
      } else {
        assert x[0] == q[0];
      }
    }
  }

  lemma {:induction false} TimesLacks(s: bytes, n: nat)
    requires 0 !in s && 92 !in s
    ensures 0 !in Times(s, n) && 92 !in Times(s, n)
  {
    if n > 0 { TimesLacks(s, n - 1); }
  }

  // ---------------------------------------------------------------------------------------------
  // Conflict names
  // ---------------------------------------------------------------------------------------------

  /** A conflict name: directory, stem, " (conflict from " with the label and ")", extension. The extension is what
      stands from the last dot of the file name on, unless that dot starts it. */
  lemma ConflictNameIs(dir: bytes, stem: bytes, ext: bytes, tag: bytes)
    requires dir != [] ==> dir[|dir| - 1] == 47
    requires 47 !in stem && 47 !in ext
    requires if ext == [] then forall i :: 1 <= i < |stem| ==> stem[i] != 46
             else stem != [] && ext[0] == 46 && 46 !in ext[1..]
    ensures ConflictName(dir + stem + ext, tag) == dir + stem + Ascii(" (conflict from ") + tag + Ascii(")") + ext
  {
    hide Cut;
    CutAsWritten(dir, stem, ext);
    FromIs();
    Assoc(dir + stem, CONFLICT_FROM + tag, [CLOSE]);
    Assoc(dir + stem, CONFLICT_FROM, tag);
  }

  lemma CutAsWritten(dir: bytes, stem: bytes, ext: bytes)
    requires dir != [] ==> dir[|dir| - 1] == 47
    requires 47 !in stem && 47 !in ext
    requires if ext == [] then forall i :: 1 <= i < |stem| ==> stem[i] != 46
             else stem != [] && ext[0] == 46 && 46 !in ext[1..]
    ensures Cut(dir + stem + ext) == Parts(dir, stem, ext)
  {
    hide Cut;
    forall j | 1 <= j < |ext| ensures ext[j] != 46 { assert ext[j] == ext[1..][j - 1]; }
    CutUnique(dir + stem + ext, Parts(dir, stem, ext));
  }

  lemma FromIs()
    ensures CONFLICT_FROM == Ascii(" (conflict from ") && [CLOSE] == Ascii(")") && REMOTE == Ascii("remote")
  {
  }

  /** Every path has these parts. */
  lemma PathHasParts(p: bytes) returns (dir: bytes, stem: bytes, ext: bytes)
    ensures p == dir + stem + ext && (dir != [] ==> dir[|dir| - 1] == 47) && 47 !in stem && 47 !in ext
    ensures if ext == [] then forall i :: 1 <= i < |stem| ==> stem[i] != 46
            else stem != [] && ext[0] == 46 && 46 !in ext[1..]
  {
    hide Cut;
    CutIsCut(p);
    dir, stem, ext := Cut(p).dir, Cut(p).stem, Cut(p).ext;
    assert forall b :: b in stem ==> b != 47;
    if ext != [] { assert forall j :: 0 <= j < |ext[1..]| ==> ext[1..][j] == ext[j + 1]; }
  }

  // ---------------------------------------------------------------------------------------------
  // Labels
  // ---------------------------------------------------------------------------------------------

  /** ASCII letters and digits, '-' and '_'. */
  predicate Keeps(c: int) { 65 <= c <= 90 || 97 <= c <= 122 || 48 <= c <= 57 || c == 45 || c == 95 }

  function Label(cs: seq<Scalar>): (r: bytes)
    ensures |r| == |cs|
  {
    seq(|cs|, i requires 0 <= i < |cs| => if Keeps(cs[i]) then cs[i] else 95)
  }

  lemma OneLabelChar(c: Scalar, rest: bytes)
    ensures SanitizeChars(Utf8Char(c) + rest) == [if Keeps(c) then c else 95] + SanitizeChars(rest)
  {
    var s := Utf8Char(c) + rest;
    CutConcat(Utf8Char(c), rest);
    assert s[1..] == Utf8Char(c)[1..] + rest;
    ContsSkipped(Utf8Char(c)[1..], rest);
  }

  lemma {:induction false} ContsSkipped(a: bytes, rest: bytes)
    requires forall i :: 0 <= i < |a| ==> Cont(a[i])
    ensures SanitizeChars(a + rest) == SanitizeChars(rest)
  {
    if a == [] {
      assert a + rest == rest;
    } else {
      assert (a + rest)[1..] == a[1..] + rest;
      ContsSkipped(a[1..], rest);
    }
  }

  lemma {:induction false} LabelChars(cs: seq<Scalar>)
    ensures SanitizeChars(Utf8(cs)) == Label(cs)
  {
    hide Utf8Char, SanitizeChars;
    if cs == [] {
      NoLabelChars();
    } else {
      OneLabelChar(cs[0], Utf8(cs[1..]));
      LabelChars(cs[1..]);
    }
  }

  lemma NoLabelChars()
    ensures SanitizeChars([]) == []
  {
  }

  /** Of a label's first 32 characters those that a label may have are kept and all others become '_'; only the empty
      label becomes "remote". */
  lemma SanitizeExact(cs: seq<Scalar>)
    ensures var r := SanitizeLabel(Utf8(cs));
            if cs == [] then r == Ascii("remote")
            else
              && |r| == (if |cs| < 32 then |cs| else 32)
              && forall i :: 0 <= i < |r| ==>
                   var c := cs[i];
                   r[i] == if 65 <= c <= 90 || 97 <= c <= 122 || 48 <= c <= 57 || c == 45 || c == 95 then c else 95
  {
    hide Utf8, SanitizeChars;
    LabelChars(cs);
    FromIs();
  }

  /** A label that is clean already is kept. */
  lemma CleanIsKept(tag: bytes)
    requires 0 < |tag| <= 32
    requires forall i :: 0 <= i < |tag| ==>
               var c := tag[i]; 65 <= c <= 90 || 97 <= c <= 122 || 48 <= c <= 57 || c == 45 || c == 95
    ensures SanitizeLabel(tag) == tag
  {
    hide Utf8, SanitizeChars;
    AsciiChars(tag);
    var cs: seq<Scalar> := tag;
    LabelChars(cs);
    assert Label(cs) == tag;
  }

  lemma {:induction false} AsciiChars(s: bytes)
    requires forall i :: 0 <= i < |s| ==> s[i] < 0x80
    ensures Utf8(s) == s
  {
    if s != [] {
      AsciiChars(s[1..]);
      assert s == [s[0]] + s[1..];
    }
  }

  /** No two conflict names coincide, but for one path under one label. */
  lemma NamesUnderLabels(p: bytes, q: bytes, a: bytes, b: bytes)
    requires CleanLabel(a) && CleanLabel(b) && ConflictName(p, a) == ConflictName(q, b)
    ensures p == q && a == b
  {
    InsertIsPlain(a);
    InsertIsPlain(b);
    CutOfSplice(p, Insert(a));
    CutOfSplice(q, Insert(b));
    SameInsert(Cut(p).stem, Cut(q).stem, a, b);
    ConflictNameInjective(p, q, a);
  }

  /** What stands between the last blank and the bracket is the label. */
  lemma SameInsert(x: bytes, y: bytes, a: bytes, b: bytes)
    requires CleanLabel(a) && CleanLabel(b) && x + Insert(a) == y + Insert(b)
    ensures a == b
  {
    var s := x + Insert(a);
    assert s == (x + CONFLICT_FROM) + a + [CLOSE] && s == (y + CONFLICT_FROM) + b + [CLOSE];
    var t := s[..|s| - 1];
    assert t == (x + CONFLICT_FROM) + a && t == (y + CONFLICT_FROM) + b;
    NoBlank(a);
    NoBlank(b);
    LastBlank(x, a, y, b, t);
    LastBlank(y, b, x, a, t);
    if |a| == |b| {
      CutConcat(x + CONFLICT_FROM, a);
      CutConcat(y + CONFLICT_FROM, b);
    }
  }

  lemma NoBlank(a: bytes)
    requires CleanLabel(a)
    ensures 32 !in a
  {
  }

  lemma LastBlank(x: bytes, a: bytes, y: bytes, b: bytes, t: bytes)
    requires t == (x + CONFLICT_FROM) + a && t == (y + CONFLICT_FROM) + b
    ensures |a| < |b| ==> 32 in b
  {
    var n := |x + CONFLICT_FROM|;
    assert t[n - 1] == (x + CONFLICT_FROM)[n - 1] == 32;
    if |a| < |b| { assert t[n - 1] == b[n - 1 - |y + CONFLICT_FROM|]; }
  }

  /** Under labels that stay distinct when sanitised no two paths share a conflict name. */
  lemma DistinctLabels(p: bytes, q: bytes, a: bytes, b: bytes)
    requires SanitizeLabel(a) != SanitizeLabel(b)
    ensures ConflictName(p, SanitizeLabel(a)) != ConflictName(q, SanitizeLabel(b))
  {
    if ConflictName(p, SanitizeLabel(a)) == ConflictName(q, SanitizeLabel(b)) {
      NamesUnderLabels(p, q, SanitizeLabel(a), SanitizeLabel(b));
    }
  }
}
