/**
 * The SHA256SUMS manifest: its printer (publish/internal/pack/pack.go) and its parsers
 * (services/terrapod/gpg_verify.py and services/terrapod/services/registry_provider_service.py).
 */
module Manifest {
  import opened Text

  type Digest = d: Bytes | |d| == 32 witness seq(32, i => 0)

  type Hash = Bytes -> Digest

  type Files = map<string, Bytes>

  // ── Hexadecimal ─────────────────────────────────────────────────────────────

  function HexDigit(n: int): (c: char)
    requires 0 <= n < 16
  {
    if n < 10 then '0' + n as char else 'a' + (n - 10) as char
  }

  function HexPair(b: byte): string {
    [HexDigit(b as int / 16), HexDigit(b as int % 16)]
  }

  /** Go's `%x` of a byte slice. */
  function Hex(d: Bytes): string {
    if d == [] then "" else Hex(d[..|d| - 1]) + HexPair(d[|d| - 1])
  }

  predicate IsHexChar(c: char) {
    '0' <= c <= '9' || 'a' <= c <= 'f'
  }

  lemma {:induction false} HexChars(d: Bytes)
    ensures |Hex(d)| == 2 * |d| && forall i :: 0 <= i < |Hex(d)| ==> IsHexChar(Hex(d)[i])
  {
    if d != [] {
      HexChars(d[..|d| - 1]);
    }
  }

  lemma HexPairInjective(a: byte, b: byte)
    requires HexPair(a) == HexPair(b)
    ensures a == b
  {
  }

  lemma {:induction false} HexInjective(d: Bytes, e: Bytes)
    requires Hex(d) == Hex(e)
    ensures d == e
    decreases |d|
  {
    HexChars(d);
    HexChars(e);
    if d != [] {
      var n := |d| - 1;
      var s, t := Hex(d[..n]), Hex(e[..n]);
      HexChars(d[..n]);
      HexChars(e[..n]);
      assert Hex(d)[..2 * n] == s && Hex(e)[..2 * n] == t;
      HexInjective(d[..n], e[..n]);
      assert Hex(d)[2 * n..] == Hex(e)[2 * n..];
      assert Hex(d)[2 * n..] == HexPair(d[n]) && Hex(e)[2 * n..] == HexPair(e[n]);
      HexPairInjective(d[n], e[n]);
      assert d == d[..n] + [d[n]] && e == e[..n] + [e[n]];
    }
  }

  /** Two digits a byte, the high one first. */
  lemma {:induction false} HexExactly(d: Bytes, i: nat)
    requires i < |d|
    ensures var digits := "0123456789abcdef";
            && |Hex(d)| == 2 * |d|
            && Hex(d)[2 * i] == digits[d[i] as int / 16] && Hex(d)[2 * i + 1] == digits[d[i] as int % 16]
  {
    var n := |d| - 1;
    HexChars(d);
    HexChars(d[..n]);
    if i < n {
      HexExactly(d[..n], i);
    } else {
      DigitExactly(d[n] as int / 16);
      DigitExactly(d[n] as int % 16);
    }
  }

  lemma DigitExactly(n: int)
    requires 0 <= n < 16
    ensures HexDigit(n) == "0123456789abcdef"[n]
  {
  }

  // ── Whitespace ──────────────────────────────────────────────────────────────

  /** `str.splitlines` breaks; a "\r\n" pair gives an extra empty line here, which the parsers skip. */
  predicate IsBreak(c: char) {
    '\U{A}' <= c <= '\U{D}' || '\U{1C}' <= c <= '\U{1E}' || c == '\U{85}' || c == '\U{2028}' || c == '\U{2029}'
  }

  lemma BreaksAre(c: char)
    ensures IsBreak(c) <==> c as int in {10, 11, 12, 13, 28, 29, 30, 133, 8232, 8233}
  {
  }

  predicate NoSpace(s: string) {
    forall i :: 0 <= i < |s| ==> !IsPythonSpace(s[i])
  }

  predicate NoBreak(s: string) {
    forall i :: 0 <= i < |s| ==> !IsBreak(s[i])
  }

  // ── The printer ─────────────────────────────────────────────────────────────

  function Line(hash: Hash, files: Files, name: string): string
    requires name in files
  {
    Hex(hash(files[name])) + "  " + name
  }

  function Render(hash: Hash, files: Files, names: seq<string>): string
    requires forall n :: n in names ==> n in files
  {
    if names == [] then "" else
    var k := |names| - 1;
    assert names[k] in names;
    Render(hash, files, names[..k]) + Line(hash, files, names[k]) + "\n"
  }

  ghost function ListOf(s: set<string>): seq<string> {
    if s == {} then [] else var x :| x in s; [x] + ListOf(s - {x})
  }

  lemma {:induction false} ListOfMembers(s: set<string>)
    ensures forall x :: x in ListOf(s) <==> x in s
  {
    if s != {} {
      var x := ListOf(s)[0];
      assert ListOf(s) == [x] + ListOf(s - {x});
      ListOfMembers(s - {x});
    }
  }

  /** The keys in ascending order. */
  ghost function SortedKeys(files: Files): (names: seq<string>)
    ensures Ascending(names) && forall n :: n in names <==> n in files
  {
    ListOfMembers(files.Keys);
    SortedDistinctIsSorted(ListOf(files.Keys));
    SortedDistinct(ListOf(files.Keys))
  }

  ghost function ManifestOf(hash: Hash, files: Files): string {
    Render(hash, files, SortedKeys(files))
  }

  /** The manifest is empty only of no files. */
  lemma EmptyManifest(hash: Hash, files: Files)
    ensures ManifestOf(hash, files) == "" <==> files == map[]
  {
    var names := SortedKeys(files);
    if files != map[] {
      var n :| n in files;
      assert n in names;
    }
  }

  lemma RenderOne(hash: Hash, files: Files, a: string)
    requires a in files
    ensures Render(hash, files, [a]) == Hex(hash(files[a])) + "  " + a + "\n"
  {
    assert [a][..0] == [];
    assert "" + Line(hash, files, a) == Line(hash, files, a);
  }

  lemma RenderTwo(hash: Hash, files: Files, a: string, b: string)
    requires a in files && b in files
    ensures Render(hash, files, [a, b]) == Render(hash, files, [a]) + Render(hash, files, [b])
  {
    RenderOne(hash, files, b);
    assert [a, b][..1] == [a];
    assert Render(hash, files, [a, b]) == Render(hash, files, [a]) + Line(hash, files, b) + "\n";
  }

  lemma KeysAre(files: Files, names: seq<string>)
    requires Ascending(names) && forall n :: n in names <==> n in files
    ensures SortedKeys(files) == names
  {
    AscendingIsUnique(SortedKeys(files), names);
  }

  /** One line a file: digest, two blanks, name, line feed; and the lines in ascending order of the names. */
  lemma TwoFiles(hash: Hash, a: string, x: Bytes, b: string, y: Bytes)
    requires Less(a, b)
    ensures ManifestOf(hash, map[a := x]) == Hex(hash(x)) + "  " + a + "\n"
    ensures ManifestOf(hash, map[a := x, b := y])
            == Hex(hash(x)) + "  " + a + "\n" + (Hex(hash(y)) + "  " + b + "\n")
  {
    LessIrreflexive(a);
    var one, two := map[a := x], map[a := x, b := y];
    KeysAre(one, [a]);
    KeysAre(two, [a, b]);
    RenderOne(hash, one, a);
    RenderTwo(hash, two, a, b);
    RenderOne(hash, two, a);
    RenderOne(hash, two, b);
  }

  /** The rendered bytes depend on the files alone, not on the order in which the map yields its keys. */
  method SHA256SUMS(hash: Hash, files: Files, order: seq<string>) returns (text: string)
    requires forall n :: n in order <==> n in files
    ensures text == ManifestOf(hash, files)
  {
    var names := [];
    for i := 0 to |order|
      invariant names == SortedDistinct(order[..i])
    {
      assert order[..i + 1][..i] == order[..i];
      names := Insert(order[i], names);
    }
    assert order[..|order|] == order;
    SortedDistinctIsSorted(order);
    AscendingIsUnique(names, SortedKeys(files));
    text := "";
    for i := 0 to |names|
      invariant text == Render(hash, files, names[..i])
    {
      assert names[..i + 1][..i] == names[..i];
      assert names[i] in names;
      text := text + Line(hash, files, names[i]) + "\n";
    }
    assert names[..|names|] == names;
  }

  // ── The parsers ─────────────────────────────────────────────────────────────

  /** The length of the leading part without a break. */
  function LineLength(s: string): (n: nat)
    ensures n <= |s| && NoBreak(s[..n]) && (n < |s| ==> IsBreak(s[n]))
  {
    if s == "" || IsBreak(s[0]) then 0 else 1 + LineLength(s[1..])
  }

  function Lines(s: string): seq<string> {
    if s == "" then [] else
    var n := LineLength(s);
    [s[..n]] + if n == |s| then [] else Lines(s[n + 1..])
  }

  function WordLength(s: string): (n: nat)
    ensures n <= |s| && NoSpace(s[..n]) && (n < |s| ==> IsPythonSpace(s[n]))
    ensures s != "" && !IsPythonSpace(s[0]) ==> n > 0
  {
    if s == "" || IsPythonSpace(s[0]) then 0 else 1 + WordLength(s[1..])
  }

  function Fields(s: string): seq<string>
    decreases |s|
  {
    if s == "" then [] else
    if IsPythonSpace(s[0]) then Fields(s[1..]) else
    var n := WordLength(s);
    [s[..n]] + Fields(s[n..])
  }

  function StripStars(s: string): (r: string)
    ensures r == "" || r[0] != '*'
  {
    if s != "" && s[0] == '*' then StripStars(s[1..]) else s
  }

  /** One line's entry: last field to lower-cased first field; only the shared parser strips leading stars. */
  function Entry(stars: bool, line: string): Option<(string, string)> {
    var parts := Fields(line);
    if |parts| < 2 then None
    else Some((if stars then StripStars(parts[|parts| - 1]) else parts[|parts| - 1], Lower(parts[0])))
  }

  function ParseLines(stars: bool, lines: seq<string>): map<string, string> {
    if lines == [] then map[] else
    var before, e := ParseLines(stars, lines[..|lines| - 1]), Entry(stars, lines[|lines| - 1]);
    if e.None? then before else before[e.value.0 := e.value.1]
  }

  function Parse(stars: bool, text: string): map<string, string> {
    ParseLines(stars, Lines(text))
  }

  /** The body of the loop: what one line adds, if anything. */
  method ParseLine(line: string) returns (e: Option<(string, string)>)
    ensures e == Entry(true, line)
  {
    var parts := Fields(line);
    if |parts| < 2 { return None; }
    var digest, name := parts[0], parts[|parts| - 1];
    return Some((StripStars(name), Lower(digest)));
  }

  method ParseSha256sums(text: string) returns (out: map<string, string>)
    ensures out == Parse(true, text)
  {
    out := map[];
    var lines := Lines(text);
    for i := 0 to |lines|
      invariant out == ParseLines(true, lines[..i])
    {
      assert lines[..i + 1] == lines[..i] + [lines[i]];
      ParseLinesMore(true, lines[..i], lines[i]);
      var e := ParseLine(lines[i]);
      if e.Some? { out := out[e.value.0 := e.value.1]; }
    }
    assert lines[..|lines|] == lines;
  }

  // ── The round trip ──────────────────────────────────────────────────────────

  predicate Readable(stars: bool, name: string) {
    name != "" && NoSpace(name) && (stars ==> name[0] != '*')
  }

  function Expected(hash: Hash, files: Files): map<string, string> {
    map n | n in files :: Hex(hash(files[n]))
  }

  lemma LinesCons(s: string, n: nat)
    requires n < |s| && NoBreak(s[..n]) && IsBreak(s[n])
    ensures Lines(s) == [s[..n]] + Lines(s[n + 1..])
  {
    LineLengthIs(s, n);
  }

  /** Appending a terminated line to terminated text appends one line. */
  lemma {:induction false} LinesOfOneMore(s: string, a: string, l: string)
    requires a == "" || IsBreak(a[|a| - 1])
    requires NoBreak(l) && s == a + l + "\n"
    ensures Lines(s) == Lines(a) + [l]
    decreases |a|
  {
    if a == "" {
      OneLine(s, l);
    } else {
      var first, c, rest := CutLine(a);
      LinesJoin(first, c, rest);
      Prefixed(first, c, rest, l);
      LinesJoin(first, c, rest + l + "\n");
      LinesOfOneMore(rest + l + "\n", rest, l);
    }
  }

  lemma OneLine(s: string, l: string)
    requires NoBreak(l) && s == l + "\n"
    ensures Lines(s) == [l]
  {
    assert s[..|l|] == l && s[|l| + 1..] == "";
    LinesCons(s, |l|);
  }

  lemma CutLine(a: string) returns (first: string, c: char, rest: string)
    requires a != "" && IsBreak(a[|a| - 1])
    ensures a == first + [c] + rest && NoBreak(first) && IsBreak(c)
    ensures rest == "" || IsBreak(rest[|rest| - 1])
  {
    var n := LineLength(a);
    first, c, rest := a[..n], a[n], a[n + 1..];
  }

  lemma Prefixed(first: string, c: char, rest: string, l: string)
    ensures first + [c] + rest + l + "\n" == first + [c] + (rest + l + "\n")
  {
  }

  lemma LinesJoin(first: string, c: char, rest: string)
    requires NoBreak(first) && IsBreak(c)
    ensures Lines(first + [c] + rest) == [first] + Lines(rest)
  {
    var s := first + [c] + rest;
    assert s[..|first|] == first && s[|first| + 1..] == rest;
    LinesCons(s, |first|);
  }

  lemma {:induction false} LineLengthIs(s: string, n: nat)
    requires n < |s| && NoBreak(s[..n]) && IsBreak(s[n])
    ensures LineLength(s) == n
  {
    if n > 0 {
      assert s[..n][0] == s[0];
      assert s[1..][..n - 1] == s[..n][1..];
      LineLengthIs(s[1..], n - 1);
    }
  }

  lemma {:induction false} WordLengthIs(s: string, n: nat)
    requires n <= |s| && NoSpace(s[..n]) && (n < |s| ==> IsPythonSpace(s[n]))
    ensures WordLength(s) == n
  {
    if n > 0 {
      assert s[..n][0] == s[0];
      assert s[1..][..n - 1] == s[..n][1..];
      WordLengthIs(s[1..], n - 1);
    }
  }

  lemma FieldsOfWord(w: string)
    requires NoSpace(w)
    ensures Fields(w) == if w == "" then [] else [w]
  {
    if w != "" {
      WordLengthIs(w, |w|);
      assert w[..|w|] == w && w[|w|..] == "";
    }
  }

  lemma FieldsCons(s: string, n: nat)
    requires 0 < n <= |s| && NoSpace(s[..n]) && (n < |s| ==> IsPythonSpace(s[n]))
    ensures Fields(s) == [s[..n]] + Fields(s[n..])
  {
    assert s[..n][0] == s[0];
    WordLengthIs(s, n);
  }

  lemma FieldsSkip(s: string, rest: string)
    requires s != "" && IsPythonSpace(s[0]) && rest == s[1..]
    ensures Fields(s) == Fields(rest)
  {
  }

  lemma FieldsOfLine(s: string, hex: string, name: string)
    requires hex != "" && NoSpace(hex) && NoSpace(name) && s == hex + "  " + name
    ensures Fields(s) == [hex] + if name == "" then [] else [name]
  {
    var n := |hex|;
    assert s[..n] == hex && s[n] == ' ' && s[n + 1] == ' ' && s[n + 2..] == name;
    FieldsCons(s, n);
    FieldsSkip(s[n..], s[n + 1..]);
    FieldsSkip(s[n + 1..], name);
    FieldsOfWord(name);
  }

  lemma HexIsPlain(d: Digest)
    ensures Hex(d) != "" && NoSpace(Hex(d)) && Lower(Hex(d)) == Hex(d)
  {
    HexChars(d);
  }

  lemma PlainLine(hash: Hash, files: Files, name: string)
    requires name in files && NoSpace(name)
    ensures NoBreak(Line(hash, files, name))
  {
    HexIsPlain(hash(files[name]));
  }

  lemma StarsKept(name: string)
    requires name == "" || name[0] != '*'
    ensures StripStars(name) == name
  {
  }

  lemma EntryOfLine(stars: bool, hash: Hash, files: Files, name: string)
    requires name in files && (name == "" || Readable(stars, name))
    ensures Entry(stars, Line(hash, files, name)) == if name == "" then None else Some((name, Hex(hash(files[name]))))
  {
    HexIsPlain(hash(files[name]));
    FieldsOfLine(Line(hash, files, name), Hex(hash(files[name])), name);
    if stars { StarsKept(name); }
  }

  predicate Blank(s: string) {
    forall i :: 0 <= i < |s| ==> IsPythonSpace(s[i])
  }

  lemma {:induction false} FieldsOfBlank(w: string, rest: string)
    requires Blank(w)
    ensures Fields(w + rest) == Fields(rest)
  {
    if w == "" {
      assert w + rest == rest;
    } else {
      assert (w + rest)[1..] == w[1..] + rest;
      FieldsOfBlank(w[1..], rest);
    }
  }

  /** Text after a separator is split on its own. */
  lemma {:induction false} FieldsConcat(s: string, t: string)
    requires s == "" || IsPythonSpace(s[|s| - 1])
    ensures Fields(s + t) == Fields(s) + Fields(t)
    decreases |s|
  {
    if s == "" {
      assert s + t == t;
    } else if IsPythonSpace(s[0]) {
      assert (s + t)[1..] == s[1..] + t;
      FieldsConcat(s[1..], t);
    } else {
      var n := WordLength(s);
      assert (s + t)[..n] == s[..n] && (s + t)[n..] == s[n..] + t;
      WordLengthIs(s + t, n);
      FieldsConcat(s[n..], t);
    }
  }

  /** A text between separators, or none. */
  predicate Separates(gap: string) {
    gap != "" && IsPythonSpace(gap[0]) && IsPythonSpace(gap[|gap| - 1])
  }

  lemma FirstAndLast(lead: string, digest: string, gap: string, name: string, trail: string)
    requires Blank(lead) && Blank(trail) && Separates(gap)
    requires digest != "" && NoSpace(digest) && name != "" && NoSpace(name)
    ensures Fields(lead + (digest + (gap + (name + trail)))) == [digest] + Fields(gap) + [name]
  {
    var last := name + trail;
    LastWord(name, trail);
    FieldsConcat(gap, last);
    FirstWord(digest, gap + last);
    FieldsOfBlank(lead, digest + (gap + last));
  }

  lemma LastWord(name: string, trail: string)
    requires Blank(trail) && name != "" && NoSpace(name)
    ensures Fields(name + trail) == [name]
  {
    FirstWord(name, trail);
    FieldsOfBlank(trail, "");
    assert trail + "" == trail;
  }

  lemma FirstWord(word: string, rest: string)
    requires word != "" && NoSpace(word) && (rest != "" ==> IsPythonSpace(rest[0]))
    ensures Fields(word + rest) == [word] + Fields(rest)
  {
    var line := word + rest;
    assert line[..|word|] == word && line[|word|..] == rest;
    FieldsCons(line, |word|);
  }

  lemma {:induction false} StarsStripped(stars: string, name: string)
    requires (forall i :: 0 <= i < |stars| ==> stars[i] == '*') && (name == "" || name[0] != '*')
    ensures StripStars(stars + name) == name
  {
    if stars == "" {
      assert stars + name == name;
      StarsKept(name);
    } else {
      assert (stars + name)[1..] == stars[1..] + name;
      StarsStripped(stars[1..], name);
    }
  }

  /**
   * What a line says: the last field is the name, without leading stars for the shared parser, and the first, in lower
   * case, its digest, whatever blanks there are and whatever stands between; a line of fewer fields says nothing.
   */
  lemma EntryExactly(lead: string, digest: string, gap: string, stars: string, name: string, trail: string)
    requires Blank(lead) && Blank(trail) && digest != "" && NoSpace(digest) && NoSpace(name)
    requires (forall i :: 0 <= i < |stars| ==> stars[i] == '*') && (name == "" || name[0] != '*') && stars + name != ""
    ensures Separates(gap) ==>
              var line := lead + (digest + (gap + ((stars + name) + trail)));
              && Entry(true, line) == Some((name, Lower(digest)))
              && Entry(false, line) == Some((stars + name, Lower(digest)))
    ensures forall b :: Entry(b, lead) == None && Entry(b, lead + (digest + trail)) == None
  {
    assert !IsPythonSpace('*') by { SpacesAre('*'); }
    if Separates(gap) {
      FirstAndLast(lead, digest, gap, stars + name, trail);
      StarsStripped(stars, name);
    }
    FieldsOfBlank(lead, "");
    assert lead + "" == lead;
    LastWord(digest, trail);
    FieldsOfBlank(lead, digest + trail);
  }

  function NamedDigests(hash: Hash, files: Files, names: seq<string>): map<string, string>
    requires forall n :: n in names ==> n in files
  {
    map n | n in names && n != "" :: Hex(hash(files[n]))
  }

  lemma NamedDigestsMore(hash: Hash, files: Files, names: seq<string>)
    requires names != [] && forall n :: n in names ==> n in files
    ensures var k := |names| - 1;
            var before := NamedDigests(hash, files, names[..k]);
            NamedDigests(hash, files, names)
              == if names[k] == "" then before else before[names[k] := Hex(hash(files[names[k]]))]
  {
  }

  /** Parsing a manifest of names that are readable or empty gives back the readable ones. */
  lemma {:induction false} ParseRendered(stars: bool, hash: Hash, files: Files, names: seq<string>)
    requires forall n :: n in names ==> n in files && (n == "" || Readable(stars, n))
    ensures Parse(stars, Render(hash, files, names)) == NamedDigests(hash, files, names)
  {
    if names != [] {
      var k := |names| - 1;
      var name, before := names[k], Render(hash, files, names[..k]);
      assert name in names;
      ParseRendered(stars, hash, files, names[..k]);
      PlainLine(hash, files, name);
      LinesOfOneMore(Render(hash, files, names), before, Line(hash, files, name));
      EntryOfLine(stars, hash, files, name);
      ParseLinesMore(stars, Lines(before), Line(hash, files, name));
      NamedDigestsMore(hash, files, names);
    }
  }

  lemma ParseLinesMore(stars: bool, lines: seq<string>, line: string)
    ensures var before, e := ParseLines(stars, lines), Entry(stars, line);
            ParseLines(stars, lines + [line]) == if e.None? then before else before[e.value.0 := e.value.1]
  {
  }

  lemma {:induction false} FieldsAreWords(s: string)
    ensures forall i :: 0 <= i < |Fields(s)| ==> Fields(s)[i] != "" && NoSpace(Fields(s)[i])
    decreases |s|
  {
    if s != "" {
      if IsPythonSpace(s[0]) { FieldsAreWords(s[1..]); } else { FieldsAreWords(s[WordLength(s)..]); }
    }
  }

  lemma {:induction false} StripStarsSuffix(s: string)
    requires NoSpace(s)
    ensures NoSpace(StripStars(s))
  {
    if s != "" && s[0] == '*' { StripStarsSuffix(s[1..]); }
  }

  /** No parse of any text ever yields a name with whitespace, or, for the shared parser, a leading star. */
  lemma {:induction false} ParsedNames(stars: bool, lines: seq<string>)
    ensures forall n :: n in ParseLines(stars, lines) ==> NoSpace(n) && (stars ==> n == "" || n[0] != '*')
  {
    if lines != [] {
      var last := lines[|lines| - 1];
      ParsedNames(stars, lines[..|lines| - 1]);
      FieldsAreWords(last);
      if |Fields(last)| >= 2 { StripStarsSuffix(Fields(last)[|Fields(last)| - 1]); }
    }
  }

  /**
   * The round trip, with its exact condition: parsing a rendered manifest yields filename to lower-case digest for
   * precisely the file maps whose names are non-empty, free of whitespace and - for the shared parser - do not start
   * with a star.
   */
  lemma RoundTrip(stars: bool, hash: Hash, files: Files)
    ensures Parse(stars, ManifestOf(hash, files)) == Expected(hash, files)
       <==> forall n :: n in files ==> Readable(stars, n)
  {
    var names := SortedKeys(files);
    var parsed := Parse(stars, ManifestOf(hash, files));
    if forall n :: n in files ==> n == "" || Readable(stars, n) {
      ParseRendered(stars, hash, files, names);
      if "" in files {
        assert "" in Expected(hash, files) && "" !in parsed;
      } else {
        assert NamedDigests(hash, files, names) == Expected(hash, files);
      }
    } else {
      var n :| n in files && n != "" && !Readable(stars, n);
      ParsedNames(stars, Lines(ManifestOf(hash, files)));
      assert n in Expected(hash, files) && n !in parsed;
    }
  }
}
