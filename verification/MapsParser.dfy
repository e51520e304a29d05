/** Reading `/proc/<pid>/maps`, against a rendering of the kernel's format. */
module MapsParser {
  import opened Wire
  import opened Strings
  import opened Snapshot

  const USIZE: nat := 0x1_0000_0000_0000_0000

  // -------------------------------------------------------------------- parsing

  function HexDigit(c: char): Option<nat> {
    if '0' <= c <= '9' then Some((c as int - '0' as int) as nat)
    else if 'a' <= c <= 'f' then Some((c as int - 'a' as int + 10) as nat)
    else if 'A' <= c <= 'F' then Some((c as int - 'A' as int + 10) as nat)
    else None
  }

  /** Digits to a number, most significant first. */
  function HexValue(s: string): Option<nat> {
    if s == "" then Some(0)
    else
      var high, low := HexValue(s[..|s| - 1]), HexDigit(s[|s| - 1]);
      if high.Some? && low.Some? then Some(high.value * 16 + low.value) else None
  }

  /** `usize::from_str_radix(s, 16).unwrap_or(0)`. */
  function HexOrZero(s: string): (n: nat)
    ensures n < USIZE
  {
    var digits := if s != "" && s[0] == '+' then s[1..] else s;
    var v := HexValue(digits);
    if digits != "" && v.Some? && v.value < USIZE then v.value else 0
  }

  /** The longest prefix without whitespace. */
  function TakeWord(s: string): (w: string)
    ensures w <= s
  {
    if s == "" || IsWhitespace(s[0]) then "" else [s[0]] + TakeWord(s[1..])
  }

  function SplitWhitespace(s: string): seq<string>
    decreases |s|
  {
    if s == "" then []
    else if IsWhitespace(s[0]) then SplitWhitespace(s[1..])
    else
      var w := TakeWord(s);
      [w] + SplitWhitespace(s[|w|..])
  }

  /** `lines()`: split at newlines, no empty last line, a carriage return before one dropped. */
  function Lines(s: string): seq<string> {
    if s == "" then []
    else
      var ls := Split(s, '\n');
      var k := |ls| - 1;
      Trimmed(ls[..k]) + if ls[k] == "" then [] else [ls[k]]
  }

  function Trimmed(ls: seq<string>): (r: seq<string>)
    ensures |r| == |ls|
  {
    seq(|ls|, i requires 0 <= i < |ls| =>
      if EndsWith(ls[i], "\r") then ls[i][..|ls[i]| - 1] else ls[i])
  }

  /** The region a line's fields describe, if there are enough and the range is well-formed. */
  function ParseParts(parts: seq<string>): Option<MemoryRegion> {
    if |parts| < 5 then None
    else
      var range := Split(parts[0], '-');
      if |range| != 2 then None
      else
        var start, end := HexOrZero(range[0]), HexOrZero(range[1]);
        var name := if |parts| > 5 then Join(parts[5..], ' ') else "";
        Some(MemoryRegion(start, end, WrappingSub(end, start), parts[1], name))
  }

  /** Subtraction of machine words. */
  function WrappingSub(a: nat, b: nat): nat
    requires a < USIZE && b < USIZE
  {
    if b <= a then a - b else a - b + USIZE
  }

  function ParseLine(line: string): Option<MemoryRegion> { ParseParts(SplitWhitespace(line)) }

  function ParseLines(lines: seq<string>): seq<MemoryRegion> {
    if lines == [] then []
    else
      var k := |lines| - 1;
      var r := ParseLine(lines[k]);
      ParseLines(lines[..k]) + if r.Some? then [r.value] else []
  }

  method ParseMemoryMaps(content: string) returns (regions: seq<MemoryRegion>)
    ensures regions == ParseLines(Lines(content))
  {
    regions := [];
    var lines := Lines(content);
    for i := 0 to |lines|
      invariant regions == ParseLines(lines[..i])
    {
      assert lines[..i + 1][..i] == lines[..i];
      var parts := SplitWhitespace(lines[i]);
      if |parts| < 5 {
        continue;
      }
      var range := Split(parts[0], '-');
      if |range| != 2 {
        continue;
      }
      var start, end := HexOrZero(range[0]), HexOrZero(range[1]);
      var name := if |parts| > 5 then Join(parts[5..], ' ') else "";
      regions := regions + [MemoryRegion(start, end, WrappingSub(end, start), parts[1], name)];
    }
    assert lines[..|lines|] == lines;
  }

  // ------------------------------------------------------------------ rendering

  ghost predicate IsWord(w: string) { w != "" && forall c :: c in w ==> !IsWhitespace(c) }

  /** One mapping as the kernel prints it: four more fields, then padding and the name's words. */
  datatype Mapping = Mapping(
    start: nat, end: nat, perms: string, offset: string, dev: string, inode: string, pad: nat, words: seq<string>)
  {
    ghost predicate Valid() {
      && start <= end < USIZE
      && IsWord(perms) && IsWord(offset) && IsWord(dev) && IsWord(inode)
      && forall w :: w in words ==> IsWord(w)
    }

    function Region(): MemoryRegion
      requires start <= end
    {
      MemoryRegion(start, end, end - start, perms, Join(words, ' '))
    }
  }

  function HexChar(d: nat): (c: char)
    requires d < 16
    ensures HexDigit(c) == Some(d) && c != '-' && c != '+' && !IsWhitespace(c)
  {
    if d < 10 then ('0' as int + d) as char else ('a' as int + d - 10) as char
  }

  /** At least `width` digits, zero-padded. */
  function Hex(n: nat, width: nat): (s: string)
    ensures |s| >= width && (width > 0 ==> s != "")
    decreases width, n
  {
    if width == 0 && n == 0 then ""
    else Hex(n / 16, if width == 0 then 0 else width - 1) + [HexChar(n % 16)]
  }

  function Spaces(n: nat): (s: string)
    ensures |s| == n && forall c :: c in s ==> c == ' '
  {
    seq(n, i => ' ')
  }

  function Address(m: Mapping): string { Hex(m.start, 8) + "-" + Hex(m.end, 8) }

  /** The name, after its padding; nothing for an anonymous mapping. */
  function NamePart(m: Mapping): string {
    if m.words == [] then "" else Spaces(m.pad) + Join(m.words, ' ')
  }

  function RenderLine(m: Mapping): string {
    Address(m) + (" " + (m.perms + (" " + (m.offset + (" " + (m.dev + (" " + (m.inode + (" " + NamePart(m))))))))))
  }

  function Render(ms: seq<Mapping>): string {
    if ms == [] then "" else Render(ms[..|ms| - 1]) + (RenderLine(ms[|ms| - 1]) + "\n")
  }

  ghost function RegionsOf(ms: seq<Mapping>): seq<MemoryRegion>
    requires forall m :: m in ms ==> m.Valid()
  {
    if ms == [] then []
    else
      assert ms[|ms| - 1] in ms && ms[|ms| - 1].Valid();
      RegionsOf(ms[..|ms| - 1]) + [ms[|ms| - 1].Region()]
  }

  // ------------------------------------------------------------------ words

  lemma {:induction false} TakeWordStops(w: string, rest: string)
    requires forall c :: c in w ==> !IsWhitespace(c)
    requires rest == "" || IsWhitespace(rest[0])
    ensures TakeWord(w + rest) == w
  {
    if w == "" {
      assert w + rest == rest;
    } else {
      assert w[0] in w;
      assert (w + rest)[1..] == w[1..] + rest;
      TakeWordStops(w[1..], rest);
    }
  }

  lemma FirstWord(w: string, rest: string)
    requires IsWord(w) && (rest == "" || IsWhitespace(rest[0]))
    ensures SplitWhitespace(w + rest) == [w] + SplitWhitespace(rest)
  {
    assert w[0] in w && (w + rest)[0] == w[0];
    TakeWordStops(w, rest);
    assert (w + rest)[|w|..] == rest;
  }

  lemma SkipSpace(rest: string)
    ensures SplitWhitespace(" " + rest) == SplitWhitespace(rest)
  {}

  lemma NextWord(w: string, rest: string)
    requires IsWord(w)
    ensures SplitWhitespace(w + (" " + rest)) == [w] + SplitWhitespace(rest)
  {
    FirstWord(w, " " + rest);
    SkipSpace(rest);
  }

  lemma {:induction false} SkipSpaces(n: nat, rest: string)
    ensures SplitWhitespace(Spaces(n) + rest) == SplitWhitespace(rest)
  {
    if n == 0 {
      assert Spaces(n) + rest == rest;
    } else {
      assert Spaces(n) + rest == " " + (Spaces(n - 1) + rest);
      SkipSpace(Spaces(n - 1) + rest);
      SkipSpaces(n - 1, rest);
    }
  }

  lemma {:induction false} WordsOfJoin(words: seq<string>)
    requires forall w :: w in words ==> IsWord(w)
    ensures SplitWhitespace(Join(words, ' ')) == words
  {
    if words != [] {
      assert words[0] in words;
      if |words| == 1 {
        FirstWord(words[0], "");
        assert words[0] + "" == words[0];
      } else {
        WordsOfJoin(words[1..]);
        Assoc(words[0], " ", Join(words[1..], ' '));
        NextWord(words[0], Join(words[1..], ' '));
      }
    }
  }

  // ---------------------------------------------------------------------- hex

  lemma {:induction false} HexInverts(n: nat, width: nat)
    ensures HexValue(Hex(n, width)) == Some(n)
    ensures forall c :: c in Hex(n, width) ==> c != '-' && c != '+' && !IsWhitespace(c)
    decreases width, n
  {
    if width != 0 || n != 0 {
      var rest := Hex(n / 16, if width == 0 then 0 else width - 1);
      HexInverts(n / 16, if width == 0 then 0 else width - 1);
      assert Hex(n, width)[..|rest|] == rest;
    }
  }

  lemma HexOrZeroInverts(n: nat)
    requires n < USIZE
    ensures HexOrZero(Hex(n, 8)) == n
  {
    HexInverts(n, 8);
    assert Hex(n, 8)[0] in Hex(n, 8);
  }

  // --------------------------------------------------------------------- lines

  lemma {:induction false} SplitPlain(s: string, sep: char)
    requires sep !in s
    ensures Split(s, sep) == [s]
  {
    if s != "" {
      SplitPlain(s[1..], sep);
      assert [s[0]] + s[1..] == s;
    }
  }

  lemma {:induction false} SplitAppend(s: string, t: string, sep: char)
    requires sep !in t
    ensures Split(s + [sep] + t, sep) == Split(s, sep) + [t]
  {
    if s == "" {
      assert (s + [sep] + t)[1..] == t;
      SplitPlain(t, sep);
    } else {
      assert (s + [sep] + t)[1..] == s[1..] + [sep] + t;
      SplitAppend(s[1..], t, sep);
    }
  }

  lemma AddressSplits(m: Mapping)
    requires m.start <= m.end < USIZE
    ensures Split(Address(m), '-') == [Hex(m.start, 8), Hex(m.end, 8)]
    ensures IsWord(Address(m))
  {
    HexInverts(m.start, 8);
    HexInverts(m.end, 8);
    SplitAppend(Hex(m.start, 8), Hex(m.end, 8), '-');
    SplitPlain(Hex(m.start, 8), '-');
  }

  lemma NameWords(m: Mapping)
    requires forall w :: w in m.words ==> IsWord(w)
    ensures SplitWhitespace(NamePart(m)) == m.words
  {
    if m.words != [] {
      SkipSpaces(m.pad, Join(m.words, ' '));
      WordsOfJoin(m.words);
    }
  }

  lemma LineWords(m: Mapping)
    requires m.Valid()
    ensures SplitWhitespace(RenderLine(m)) == [Address(m), m.perms, m.offset, m.dev, m.inode] + m.words
  {
    var t5 := NamePart(m);
    var t4 := m.inode + (" " + t5);
    var t3 := m.dev + (" " + t4);
    var t2 := m.offset + (" " + t3);
    var t1 := m.perms + (" " + t2);
    AddressSplits(m);
    NameWords(m);
    NextWord(m.inode, t5);
    NextWord(m.dev, t4);
    NextWord(m.offset, t3);
    NextWord(m.perms, t2);
    NextWord(Address(m), t1);
    FiveAndMore(Address(m), m.perms, m.offset, m.dev, m.inode, m.words);
  }

  lemma FiveAndMore(a: string, b: string, c: string, d: string, e: string, more: seq<string>)
    ensures [a] + ([b] + ([c] + ([d] + ([e] + more)))) == [a, b, c, d, e] + more
  {}

  lemma PartsParse(m: Mapping, parts: seq<string>)
    requires m.start <= m.end < USIZE
    requires parts == [Address(m), m.perms, m.offset, m.dev, m.inode] + m.words
    ensures ParseParts(parts) == Some(m.Region())
  {
    AddressSplits(m);
    HexOrZeroInverts(m.start);
    HexOrZeroInverts(m.end);
    assert parts[5..] == m.words;
  }

  lemma LineParses(m: Mapping)
    requires m.Valid()
    ensures ParseLine(RenderLine(m)) == Some(m.Region())
  {
    LineWords(m);
    PartsParse(m, SplitWhitespace(RenderLine(m)));
  }

  /** No whitespace but spaces. */
  ghost predicate Plain(s: string) { forall c :: c in s ==> c == ' ' || !IsWhitespace(c) }

  lemma PlainEnd(s: string)
    requires Plain(s)
    ensures !EndsWith(s, "\r")
  {
    if s != "" {
      var k := |s| - 1;
      assert s[k] in s && s[k..][0] == s[k];
    }
  }

  lemma {:induction false} JoinPlain(words: seq<string>)
    requires forall w :: w in words ==> IsWord(w)
    ensures Plain(Join(words, ' '))
  {
    if words != [] {
      assert words[0] in words;
      if |words| > 1 {
        JoinPlain(words[1..]);
      }
    }
  }

  lemma LinePlain(m: Mapping)
    requires m.Valid()
    ensures Plain(RenderLine(m))
  {
    AddressSplits(m);
    JoinPlain(m.words);
    assert Plain(NamePart(m));
  }

  lemma {:induction false} SplitExtend(s: string, t: string, sep: char)
    requires sep !in t
    ensures var parts := Split(s, sep); var k := |parts| - 1; Split(s + t, sep) == parts[..k] + [parts[k] + t]
  {
    if s == "" {
      assert s + t == t;
      SplitPlain(t, sep);
    } else {
      assert (s + t)[1..] == s[1..] + t && (s + t)[0] == s[0];
      SplitExtend(s[1..], t, sep);
      var tail := Split(s[1..], sep);
      if s[0] == sep {
        ExtendLater([""], tail, t);
      } else {
        ExtendFirst([s[0]], tail, t);
      }
    }
  }

  lemma ExtendLater(first: seq<string>, tail: seq<string>, t: string)
    requires tail != []
    ensures var k := |tail| - 1; var all := first + tail;
            first + (tail[..k] + [tail[k] + t]) == all[..|all| - 1] + [all[|all| - 1] + t]
  {
    var all := first + tail;
    assert all[..|all| - 1] == first + tail[..|tail| - 1];
  }

  lemma ExtendFirst(c: string, tail: seq<string>, t: string)
    requires tail != []
    ensures var k := |tail| - 1; var ext := tail[..k] + [tail[k] + t]; var all := [c + tail[0]] + tail[1..];
            [c + ext[0]] + ext[1..] == all[..|all| - 1] + [all[|all| - 1] + t]
  {
    if |tail| == 1 {
      Assoc(c, tail[0], t);
    }
  }

  function LinesOf(ms: seq<Mapping>): seq<string> {
    if ms == [] then [] else LinesOf(ms[..|ms| - 1]) + [RenderLine(ms[|ms| - 1])]
  }

  lemma {:induction false} RenderSplits(ms: seq<Mapping>)
    requires forall m :: m in ms ==> m.Valid()
    ensures Split(Render(ms), '\n') == LinesOf(ms) + [""]
    ensures ms != [] ==> Render(ms) != ""
    ensures forall l :: l in LinesOf(ms) ==> Plain(l)
  {
    if ms != [] {
      var k := |ms| - 1;
      var before, line := Render(ms[..k]), RenderLine(ms[k]);
      assert ms[k] in ms;
      RenderSplits(ms[..k]);
      LinePlain(ms[k]);
      AddLine(before, LinesOf(ms[..k]), line);
    }
  }

  lemma AddLine(before: string, lines: seq<string>, line: string)
    requires Split(before, '\n') == lines + [""] && '\n' !in line
    ensures Split(before + (line + "\n"), '\n') == lines + [line] + [""]
  {
    SplitExtend(before, line, '\n');
    assert "" + line == line;
    assert Split(before + line, '\n') == lines + [line];
    SplitAppend(before + line, "", '\n');
    assert before + line + "\n" + "" == before + (line + "\n");
  }

  lemma LinesOfRender(ms: seq<Mapping>)
    requires forall m :: m in ms ==> m.Valid()
    ensures Lines(Render(ms)) == LinesOf(ms)
  {
    if ms != [] {
      RenderSplits(ms);
      var ls := LinesOf(ms);
      var k := |ls|;
      assert (ls + [""])[k] == "" && (ls + [""])[..k] == ls;
      forall i | 0 <= i < |ls|
        ensures !EndsWith(ls[i], "\r")
      {
        assert ls[i] in ls;
        PlainEnd(ls[i]);
      }
      assert Trimmed(ls) == ls;
    }
  }

  lemma {:induction false} LinesParse(ms: seq<Mapping>)
    requires forall m :: m in ms ==> m.Valid()
    ensures ParseLines(LinesOf(ms)) == RegionsOf(ms)
  {
    if ms != [] {
      var k := |ms| - 1;
      assert ms[k] in ms;
      LinesParse(ms[..k]);
      LineParses(ms[k]);
      assert LinesOf(ms)[..|LinesOf(ms)| - 1] == LinesOf(ms[..k]);
    }
  }

  /** Parsing the text of any list of mappings gives exactly those regions. */
  lemma ParseInvertsRender(ms: seq<Mapping>)
    requires forall m :: m in ms ==> m.Valid()
    ensures ParseLines(Lines(Render(ms))) == RegionsOf(ms)
  {
    LinesOfRender(ms);
    LinesParse(ms);
  }
}
