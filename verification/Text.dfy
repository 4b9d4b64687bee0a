/** Strings, bytes and the string order that the other modules share. */
module Text {

  newtype byte = x: int | 0 <= x < 256

  type Bytes = seq<byte>

  datatype Option<+T> = None | Some(value: T)

  function LowerChar(c: char): char {
    if 'A' <= c <= 'Z' then c - 'A' + 'a' else c
  }

  /** ASCII lower-casing. */
  function Lower(s: string): (r: string)
    ensures |r| == |s|
    ensures forall i :: 0 <= i < |s| ==> r[i] == LowerChar(s[i])
  {
    seq(|s|, i requires 0 <= i < |s| => LowerChar(s[i]))
  }

  predicate EqualFold(a: string, b: string) {
    Lower(a) == Lower(b)
  }

  predicate HasPrefix(s: string, p: string) {
    |p| <= |s| && s[..|p|] == p
  }

  /** The order of Go's `sort.Strings` and of Python's `sorted` on strings: by code point, prefixes first. */
  predicate Less(a: string, b: string) {
    b != [] && (a == [] || a[0] < b[0] || (a[0] == b[0] && Less(a[1..], b[1..])))
  }

  lemma {:induction false} LessTotal(a: string, b: string)
    ensures Less(a, b) || a == b || Less(b, a)
  {
    if a != [] && b != [] && a[0] == b[0] {
      LessTotal(a[1..], b[1..]);
      assert a == [a[0]] + a[1..] && b == [b[0]] + b[1..];
    }
  }

  lemma {:induction false} LessTransitive(a: string, b: string, c: string)
    requires Less(a, b) && Less(b, c)
    ensures Less(a, c)
  {
    if a != [] && a[0] == b[0] && b[0] == c[0] {
      LessTransitive(a[1..], b[1..], c[1..]);
    }
  }

  lemma {:induction false} LessIrreflexive(a: string)
    ensures !Less(a, a)
  {
    if a != [] {
      LessIrreflexive(a[1..]);
    }
  }

  predicate Ascending(xs: seq<string>) {
    forall i, j :: 0 <= i < j < |xs| ==> Less(xs[i], xs[j])
  }

  /** Insert into an ascending list, dropping a duplicate. */
  function Insert(x: string, xs: seq<string>): seq<string> {
    if xs == [] then [x]
    else if x == xs[0] then xs
    else if Less(x, xs[0]) then [x] + xs
    else [xs[0]] + Insert(x, xs[1..])
  }

  lemma {:induction false} InsertKeepsAscending(x: string, xs: seq<string>)
    requires Ascending(xs)
    ensures Ascending(Insert(x, xs))
    ensures forall y :: y in Insert(x, xs) <==> y == x || y in xs
  {
    if xs == [] {
    } else if x == xs[0] {
    } else if Less(x, xs[0]) {
      forall j | 0 <= j < |xs| ensures Less(x, xs[j]) {
        if j > 0 { LessTransitive(x, xs[0], xs[j]); }
      }
    } else {
      LessTotal(x, xs[0]);
      var rest := Insert(x, xs[1..]);
      InsertKeepsAscending(x, xs[1..]);
      assert xs == [xs[0]] + xs[1..];
      forall j | 0 <= j < |rest| ensures Less(xs[0], rest[j]) {
        assert rest[j] in rest;
      }
    }
  }

  /** The ascending, duplicate-free list of the strings in `xs`. */
  function SortedDistinct(xs: seq<string>): seq<string> {
    if xs == [] then [] else Insert(xs[|xs| - 1], SortedDistinct(xs[..|xs| - 1]))
  }

  lemma {:induction false} SortedDistinctIsSorted(xs: seq<string>)
    ensures Ascending(SortedDistinct(xs))
    ensures forall y :: y in SortedDistinct(xs) <==> y in xs
  {
    if xs != [] {
      var n := |xs| - 1;
      SortedDistinctIsSorted(xs[..n]);
      InsertKeepsAscending(xs[n], SortedDistinct(xs[..n]));
      assert xs == xs[..n] + [xs[n]];
    }
  }

  /** Two ascending lists with the same members are the same list. */
  lemma {:induction false} AscendingIsUnique(xs: seq<string>, ys: seq<string>)
    requires Ascending(xs) && Ascending(ys)
    requires forall z :: z in xs <==> z in ys
    ensures xs == ys
  {
    assert ys == [] || ys[0] in ys;
    if xs != [] {
      assert xs[0] in xs;
      assert xs[0] in ys;
      HeadIsLeast(xs, ys[0]);
      HeadIsLeast(ys, xs[0]);
      if xs[0] != ys[0] {
        LessTransitive(xs[0], ys[0], xs[0]);
        LessIrreflexive(xs[0]);
      }
      forall z ensures z in xs[1..] <==> z in ys[1..] {
        TailMembers(xs, z);
        TailMembers(ys, z);
      }
      AscendingIsUnique(xs[1..], ys[1..]);
      assert xs == [xs[0]] + xs[1..] && ys == [ys[0]] + ys[1..];
    }
  }

  lemma HeadIsLeast(xs: seq<string>, z: string)
    requires Ascending(xs) && z in xs
    ensures z == xs[0] || Less(xs[0], z)
  {
  }

  lemma TailMembers(xs: seq<string>, z: string)
    requires Ascending(xs) && xs != []
    ensures z in xs[1..] <==> z in xs && z != xs[0]
  {
    LessIrreflexive(xs[0]);
    assert xs == [xs[0]] + xs[1..];
    if z in xs[1..] {
      var i :| 0 <= i < |xs| - 1 && xs[1..][i] == z;
      assert xs[i + 1] == z && Less(xs[0], xs[i + 1]);
    }
  }

  // ── Whitespace ──────────────────────────────────────────────────────────────

  /** What Python's `str.strip` and `str.split` take for whitespace. */
  predicate IsPythonSpace(c: char) {
    || '\U{9}' <= c <= '\U{D}' || '\U{1C}' <= c <= '\U{20}' || c == '\U{85}' || c == '\U{A0}' || c == '\U{1680}'
    || '\U{2000}' <= c <= '\U{200A}' || c == '\U{2028}' || c == '\U{2029}' || c == '\U{202F}' || c == '\U{205F}'
    || c == '\U{3000}'
  }

  /** What Go's `unicode.IsSpace` does: the same without the four separators below the blank. */
  predicate IsGoSpace(c: char) {
    || '\U{9}' <= c <= '\U{D}' || c == ' ' || c == '\U{85}' || c == '\U{A0}' || c == '\U{1680}'
    || '\U{2000}' <= c <= '\U{200A}' || c == '\U{2028}' || c == '\U{2029}' || c == '\U{202F}' || c == '\U{205F}'
    || c == '\U{3000}'
  }

  /** Both, by code point. */
  lemma SpacesAre(c: char)
    ensures IsGoSpace(c) <==>
              c as int in {9, 10, 11, 12, 13, 32, 133, 160, 5760, 8192, 8193, 8194, 8195, 8196, 8197, 8198, 8199, 8200,
                           8201, 8202, 8232, 8233, 8239, 8287, 12288}
    ensures IsPythonSpace(c) <==> IsGoSpace(c) || c as int in {28, 29, 30, 31}
  {
    assert c as int == 8192 <==> c == '\U{2000}';
    assert c as int == 8202 <==> c == '\U{200A}';
  }

  function TrimLeft(p: char -> bool, s: string): string {
    if s != "" && p(s[0]) then TrimLeft(p, s[1..]) else s
  }

  function TrimRight(p: char -> bool, s: string): string {
    if s != "" && p(s[|s| - 1]) then TrimRight(p, s[..|s| - 1]) else s
  }

  function Trim(p: char -> bool, s: string): string {
    TrimRight(p, TrimLeft(p, s))
  }

  predicate AllOf(p: char -> bool, s: string) {
    forall i :: 0 <= i < |s| ==> p(s[i])
  }

  lemma {:induction false} LeftPart(p: char -> bool, s: string) returns (a: string)
    ensures s == a + TrimLeft(p, s) && AllOf(p, a)
    ensures TrimLeft(p, s) != "" ==> !p(TrimLeft(p, s)[0])
  {
    a := "";
    if s != "" && p(s[0]) {
      a := LeftPart(p, s[1..]);
      a := [s[0]] + a;
    }
  }

  lemma {:induction false} RightPart(p: char -> bool, s: string) returns (b: string)
    ensures s == TrimRight(p, s) + b && AllOf(p, b) && TrimRight(p, s) == s[..|TrimRight(p, s)|]
    ensures TrimRight(p, s) != "" ==> !p(TrimRight(p, s)[|TrimRight(p, s)| - 1])
  {
    b := "";
    if s != "" && p(s[|s| - 1]) {
      b := RightPart(p, s[..|s| - 1]);
      b := b + [s[|s| - 1]];
    }
  }

  /** The trimmed text is what stands between leading and trailing characters of the kind, and has none at its ends. */
  lemma TrimExactly(p: char -> bool, s: string) returns (a: string, b: string)
    ensures s == a + Trim(p, s) + b && AllOf(p, a) && AllOf(p, b)
    ensures Trim(p, s) != "" ==> !p(Trim(p, s)[0]) && !p(Trim(p, s)[|Trim(p, s)| - 1])
  {
    a := LeftPart(p, s);
    b := RightPart(p, TrimLeft(p, s));
  }

  /** The part occurs somewhere in the text. */
  predicate Within(part: string, s: string) {
    exists i :: 0 <= i <= |s| && HasPrefix(s[i..], part)
  }

  lemma WithinExactly(part: string, s: string)
    ensures Within(part, s) <==> exists a: string, b: string :: s == a + part + b
  {
    if Within(part, s) {
      var i :| 0 <= i <= |s| && HasPrefix(s[i..], part);
      assert s == s[..i] + part + s[i + |part|..];
    }
    if a: string, b: string :| s == a + part + b {
      assert s[|a|..] == part + b;
      assert HasPrefix(s[|a|..], part);
    }
  }
}
