/** The Python `str` operations the installers rely on: `lower`, `strip`,
    `split(sep)`, `rstrip(ch)` and `os.path.basename`. */
module PyStr {

  /** Python's `str.isspace` for one character: the ASCII separators and the
      Unicode space characters. */
  predicate IsSpace(c: char) {
    c == ' ' || ('\t' <= c <= '\r') || ('\U{1C}' <= c <= '\U{1F}')
    || c == '\U{85}' || c == '\U{A0}' || c == '\U{1680}'
    || ('\U{2000}' <= c <= '\U{200A}') || c == '\U{2028}' || c == '\U{2029}'
    || c == '\U{202F}' || c == '\U{205F}' || c == '\U{3000}'
  }

  predicate IsUpper(c: char) {
    'A' <= c <= 'Z'
  }

  function LowerChar(c: char): (r: char)
    ensures !IsUpper(r)
    ensures !IsUpper(c) ==> r == c
    ensures IsUpper(c) ==> 'a' <= r <= 'z' && r as int - 'a' as int == c as int - 'A' as int
  {
    if IsUpper(c) then (c as int + 32) as char else c
  }

  /** `s.lower()`, restricted to the ASCII letters. */
  function Lower(s: string): (r: string)
    ensures |r| == |s|
  {
    if s == [] then [] else [LowerChar(s[0])] + Lower(s[1..])
  }

  /** Lowering works character by character. */
  lemma {:induction false} LowerChars(s: string)
    ensures forall k :: 0 <= k < |s| ==> Lower(s)[k] == LowerChar(s[k])
  {
    if s != [] {
      LowerChars(s[1..]);
    }
  }

  lemma LowerIdempotent(s: string)
    ensures Lower(Lower(s)) == Lower(s)
  {
    LowerChars(s);
    LowerChars(Lower(s));
  }

  /** `s.lstrip()`. */
  function LStrip(s: string): (r: string)
    ensures |r| <= |s|
  {
    if s != [] && IsSpace(s[0]) then LStrip(s[1..]) else s
  }

  /** `s.lstrip()` is the suffix left once the leading white space is dropped. */
  lemma {:induction false} LStripDropsSpace(s: string)
    ensures var r := LStrip(s);
      && r == s[|s| - |r|..]
      && (forall k :: 0 <= k < |s| - |r| ==> IsSpace(s[k]))
      && (r == [] || !IsSpace(r[0]))
  {
    if s != [] && IsSpace(s[0]) {
      LStripDropsSpace(s[1..]);
    }
  }

  /** `s.rstrip()`. */
  function RStrip(s: string): (r: string)
    ensures |r| <= |s|
  {
    if s != [] && IsSpace(s[|s| - 1]) then RStrip(s[..|s| - 1]) else s
  }

  /** `s.rstrip()` is the prefix left once the trailing white space is dropped. */
  lemma {:induction false} RStripDropsSpace(s: string)
    ensures var r := RStrip(s);
      && r == s[..|r|]
      && (forall k :: |r| <= k < |s| ==> IsSpace(s[k]))
      && (r == [] || !IsSpace(r[|r| - 1]))
  {
    if s != [] && IsSpace(s[|s| - 1]) {
      RStripDropsSpace(s[..|s| - 1]);
    }
  }

  /** `s.strip()`. */
  function Strip(s: string): string {
    RStrip(LStrip(s))
  }

  /** Stripping leaves a piece of the string, so it adds no character. */
  lemma StripAddsNothing(s: string, d: char)
    requires d !in s
    ensures d !in Strip(s)
  {
    var l := LStrip(s);
    var r := RStrip(l);
    LStripDropsSpace(s);
    RStripDropsSpace(l);
    forall k | 0 <= k < |r|
      ensures r[k] != d
    {
      assert r[k] == l[k];
      assert l[k] == s[|s| - |l| + k];
    }
  }

  /** `s.rstrip()` keeps everything up to a character that is not white space. */
  lemma RStripKeeps(s: string, n: nat)
    requires n < |s| && !IsSpace(s[n])
    ensures n < |RStrip(s)| && RStrip(s)[..n + 1] == s[..n + 1]
  {
    RStripDropsSpace(s);
  }

  /** `s.rstrip(c)` for a single character `c`. */
  function RStripChar(s: string, c: char): (r: string)
    ensures |r| <= |s|
  {
    if s != [] && s[|s| - 1] == c then RStripChar(s[..|s| - 1], c) else s
  }

  /** `s` is `s.rstrip(c)` followed only by copies of `c`, and `s.rstrip(c)`
      does not end in `c`. */
  lemma {:induction false} RStripCharDrops(s: string, c: char)
    ensures var r := RStripChar(s, c);
      && r == s[..|r|]
      && (forall k :: |r| <= k < |s| ==> s[k] == c)
      && (r == [] || r[|r| - 1] != c)
  {
    if s != [] && s[|s| - 1] == c {
      RStripCharDrops(s[..|s| - 1], c);
    }
  }

  /** Pieces joined with one separator between neighbours: the inverse of Split. */
  function Join(parts: seq<string>, c: char): string
    requires |parts| >= 1
  {
    if |parts| == 1 then parts[0] else parts[0] + [c] + Join(parts[1..], c)
  }

  /** `s.split(c)`: always at least one piece. */
  function Split(s: string, c: char): (r: seq<string>)
    ensures |r| >= 1
  {
    if s == [] then [""]
    else
      var rest := Split(s[1..], c);
      if s[0] == c then [""] + rest
      else [[s[0]] + rest[0]] + rest[1..]
  }

  /** No piece of `s.split(c)` holds the separator, and joining the pieces
      with the separator gives back `s`. */
  lemma {:induction false} SplitPieces(s: string, c: char)
    ensures forall k :: 0 <= k < |Split(s, c)| ==> c !in Split(s, c)[k]
    ensures Join(Split(s, c), c) == s
  {
    if s != [] {
      var rest := Split(s[1..], c);
      SplitPieces(s[1..], c);
      if s[0] == c {
        assert Split(s, c)[1..] == rest;
        assert s == [c] + s[1..];
      } else {
        var r := Split(s, c);
        assert r == [[s[0]] + rest[0]] + rest[1..];
        forall k | 0 <= k < |r|
          ensures c !in r[k]
        {
          if k > 0 {
            assert r[k] == rest[k];
          }
        }
        if |rest| == 1 {
          assert s == [s[0]] + rest[0];
        } else {
          assert r[1..] == rest[1..];
          assert Join(rest, c) == rest[0] + [c] + Join(rest[1..], c);
          assert s == [s[0]] + s[1..];
        }
      }
    }
  }

  /** The pieces of a split hold no character the string does not hold. */
  lemma {:induction false} SplitAddsNothing(s: string, c: char, d: char)
    requires d !in s
    ensures forall k :: 0 <= k < |Split(s, c)| ==> d !in Split(s, c)[k]
  {
    if s != [] {
      var rest := Split(s[1..], c);
      SplitAddsNothing(s[1..], c, d);
      if s[0] != c {
        var r := Split(s, c);
        assert r == [[s[0]] + rest[0]] + rest[1..];
        forall k | 0 <= k < |r|
          ensures d !in r[k]
        {
          if k > 0 {
            assert r[k] == rest[k];
          }
        }
      } else {
        assert Split(s, c)[1..] == rest;
      }
    }
  }

  /** Splitting a joined sequence of separator-free pieces gives the pieces back. */
  lemma {:induction false} SplitJoin(parts: seq<string>, c: char)
    requires |parts| >= 1
    requires forall k :: 0 <= k < |parts| ==> c !in parts[k]
    ensures Split(Join(parts, c), c) == parts
  {
    if |parts| == 1 {
      SplitOfPiece(parts[0], c);
    } else {
      SplitJoin(parts[1..], c);
      SplitPieceThen(parts[0], Join(parts[1..], c), c);
    }
  }

  /** A string without the separator splits into itself alone. */
  lemma {:induction false} SplitOfPiece(p: string, c: char)
    requires c !in p
    ensures Split(p, c) == [p]
  {
    if p != [] {
      SplitOfPiece(p[1..], c);
      assert [p[0]] + p[1..] == p;
    }
  }

  /** Splitting `p + [c] + t`, where `p` holds no separator, yields `p` and then
      the pieces of `t`. */
  lemma {:induction false} SplitPieceThen(p: string, t: string, c: char)
    requires c !in p
    ensures Split(p + [c] + t, c) == [p] + Split(t, c)
  {
    if p == [] {
      assert (p + [c] + t)[1..] == t;
    } else {
      assert (p + [c] + t)[1..] == p[1..] + [c] + t;
      SplitPieceThen(p[1..], t, c);
      assert [p[0]] + p[1..] == p;
    }
  }

  /** `s.split(c)` yields a single piece exactly when `s` holds no separator. */
  lemma {:induction false} SplitSingle(s: string, c: char)
    ensures |Split(s, c)| == 1 <==> c !in s
  {
    if s != [] {
      SplitSingle(s[1..], c);
      assert s == [s[0]] + s[1..];
    }
  }

  /** The first piece of `p + t`, where `p` holds no separator, starts with `p`. */
  lemma {:induction false} SplitFirstPiece(p: string, t: string, c: char)
    requires c !in p
    ensures Split(p + t, c)[0] == p + Split(t, c)[0]
  {
    if p != [] {
      assert (p + t)[1..] == p[1..] + t;
      SplitFirstPiece(p[1..], t, c);
      assert [p[0]] + p[1..] == p;
    } else {
      assert p + t == t;
    }
  }

  /** `os.path.basename(p)`: the text after the last `/`, all of `p` when it
      has none, and "" when `p` ends in `/`. */
  function Basename(p: string): string {
    if p == [] || p[|p| - 1] == '/' then []
    else Basename(p[..|p| - 1]) + [p[|p| - 1]]
  }

  /** The basename is a suffix of `p` without a `/`, and it is either all of
      `p` or preceded by a `/`. */
  lemma {:induction false} BasenameIsLastSegment(p: string)
    ensures var r := Basename(p);
      && '/' !in r
      && |r| <= |p| && r == p[|p| - |r|..]
      && (|r| == |p| || p[|p| - |r| - 1] == '/')
  {
    if p != [] && p[|p| - 1] != '/' {
      var q := p[..|p| - 1];
      BasenameIsLastSegment(q);
      var r' := Basename(q);
      assert Basename(p) == r' + [p[|p| - 1]];
      assert p[|p| - |r'| - 1..] == q[|q| - |r'|..] + [p[|p| - 1]];
    }
  }

  /** When the last `/` of `p` is at position `j`, the basename is what follows it. */
  lemma {:induction false} BasenameAfterLastSlash(p: string, j: nat)
    requires j < |p| && p[j] == '/'
    requires forall k :: j < k < |p| ==> p[k] != '/'
    ensures Basename(p) == p[j + 1..]
  {
    BasenameIsLastSegment(p);
    var r := Basename(p);
    var m := |p| - |r|;
    forall k | m <= k < |p|
      ensures p[k] != '/'
    {
      assert p[k] == r[k - m];
    }
    assert j < m;
    assert p[m - 1] == '/';
    assert m - 1 == j;
  }

  /** The basename of `dir + "/" + name` is `name` whenever `name` holds no `/`
      (in particular a `.git` suffix is kept). */
  lemma {:induction false} BasenameOfChild(dir: string, name: string)
    requires '/' !in name
    ensures Basename(dir + "/" + name) == name
  {
    var p := dir + "/" + name;
    assert forall k :: |dir| < k < |p| ==> p[k] == name[k - |dir| - 1];
    BasenameAfterLastSlash(p, |dir|);
    assert p[|dir| + 1..] == name;
  }
}
