/**
 The binary protocol between Supervisor, Zygote and workers: bincode 1.3
 bodies (fixed-width little-endian integers, 64-bit length prefixes, UTF-8
 strings) inside frames with a 32-bit little-endian length.
 */
module Wire {

  datatype Option<+T> = None | Some(value: T)

  type byte = n: int | 0 <= n < 0x100
  type u32 = n: int | 0 <= n < 0x1_0000_0000
  type u64 = n: int | 0 <= n < 0x1_0000_0000_0000_0000
  type i32 = n: int | -0x8000_0000 <= n < 0x8000_0000

  const MAX_U64: nat := 0x1_0000_0000_0000_0000

  /** A parser consumes a prefix of its input, or fails. */
  datatype Parsed<+T> = Bad | Got(value: T, rest: seq<byte>)

  function Min(a: nat, b: nat): nat { if a < b then a else b }

  function Max(a: nat, b: nat): nat { if a < b then b else a }

  lemma Assoc<T>(a: seq<T>, b: seq<T>, c: seq<T>)
    ensures a + b + c == a + (b + c)
  {}

  // ---------------------------------------------------------------- integers

  function Pow256(w: nat): (p: nat)
    ensures p >= 1
  {
    if w == 0 then 1 else 256 * Pow256(w - 1)
  }

  /** `to_le_bytes`, with the `as` cast's truncation to the width. */
  function LeBytes(n: nat, w: nat): (bs: seq<byte>)
    ensures |bs| == w
    decreases w
  {
    if w == 0 then [] else [n % 256] + LeBytes(n / 256, w - 1)
  }

  /** `from_le_bytes`. */
  function LeValue(bs: seq<byte>): (n: nat)
    ensures n < Pow256(|bs|)
  {
    if bs == [] then 0 else bs[0] + 256 * LeValue(bs[1..])
  }

  lemma {:induction false} LeRoundTrip(n: nat, w: nat)
    requires n < Pow256(w)
    ensures LeValue(LeBytes(n, w)) == n
    decreases w
  {
    if w > 0 {
      LeRoundTrip(n / 256, w - 1);
      assert LeBytes(n, w)[1..] == LeBytes(n / 256, w - 1);
    }
  }

  /** Little-endian: the byte at `i` is worth 256 to the `i`. */
  lemma {:induction false} LeByteAt(n: nat, w: nat, i: nat)
    requires i < w
    ensures LeBytes(n, w)[i] == n / Pow256(i) % 256
    decreases w
  {
    if i > 0 {
      LeByteAt(n / 256, w - 1, i - 1);
      DivDiv(n, Pow256(i - 1));
    }
  }

  lemma DivDiv(n: nat, p: nat)
    requires p > 0
    ensures n / 256 / p == n / (256 * p)
  {
    var q, r := n / (256 * p), n % (256 * p);
    assert n == q * (256 * p) + r;
    var a := n / 256;
    assert a / p == q by {
      var low := a - q * p;
      assert 256 * (q * p) == q * (256 * p);
      assert 0 <= low < p;
      QuotientOf(a, p, q, low);
    }
  }

  lemma QuotientOf(a: nat, p: nat, q: nat, low: nat)
    requires p > 0 && low < p && a == q * p + low
    ensures a / p == q
  {
    var d := a / p;
    assert d * p <= a < d * p + p;
    if d < q {
      TimesGrows(d + 1, q, p);
    } else if q < d {
      TimesGrows(q + 1, d, p);
    }
  }

  lemma TimesGrows(x: nat, y: nat, p: nat)
    requires x <= y
    ensures x * p <= y * p
  {}

  lemma Widths()
    ensures Pow256(1) == 0x100
    ensures Pow256(4) == 0x1_0000_0000
    ensures Pow256(8) == 0x1_0000_0000_0000_0000
  {}

  function Uint(w: nat, bs: seq<byte>): Parsed<nat> {
    if |bs| < w then Bad else Got(LeValue(bs[..w]), bs[w..])
  }

  lemma UintInverts(n: nat, w: nat, rest: seq<byte>)
    requires n < Pow256(w)
    ensures Uint(w, LeBytes(n, w) + rest) == Got(n, rest)
  {
    LeRoundTrip(n, w);
    assert (LeBytes(n, w) + rest)[..w] == LeBytes(n, w);
    assert (LeBytes(n, w) + rest)[w..] == rest;
  }

  // ----------------------------------------------------------------- strings

  function EncodeChar(c: char): (bs: seq<byte>)
    ensures 1 <= |bs| <= 4
  {
    var n := c as int;
    if n < 0x80 then [n]
    else if n < 0x800 then [0xC0 + n / 64, 0x80 + n % 64]
    else if n < 0x1_0000 then [0xE0 + n / 4096, 0x80 + n / 64 % 64, 0x80 + n % 64]
    else [0xF0 + n / 0x4_0000, 0x80 + n / 4096 % 64, 0x80 + n / 64 % 64, 0x80 + n % 64]
  }

  predicate Continuation(b: byte) { 0x80 <= b < 0xC0 }

  function Join2(a: int, b: int): int { (a - 0xC0) * 64 + (b - 0x80) }
  function Join3(a: int, b: int, c: int): int { (a - 0xE0) * 4096 + (b - 0x80) * 64 + (c - 0x80) }
  function Join4(a: int, b: int, c: int, d: int): int {
    (a - 0xF0) * 0x4_0000 + (b - 0x80) * 4096 + (c - 0x80) * 64 + (d - 0x80)
  }

  /** One scalar value; overlong forms, surrogates and stray bytes are rejected. */
  function DecodeChar(bs: seq<byte>): (p: Parsed<char>)
    ensures p.Got? ==> |p.rest| < |bs|
  {
    if bs == [] then Bad
    else if bs[0] < 0x80 then Got(bs[0] as char, bs[1..])
    else if 0xC0 <= bs[0] < 0xE0 && |bs| >= 2 && Continuation(bs[1]) then
      var n := Join2(bs[0], bs[1]);
      if n < 0x80 then Bad else Got(n as char, bs[2..])
    else if 0xE0 <= bs[0] < 0xF0 && |bs| >= 3 && Continuation(bs[1]) && Continuation(bs[2]) then
      var n := Join3(bs[0], bs[1], bs[2]);
      if n < 0x800 || 0xD800 <= n < 0xE000 then Bad else Got(n as char, bs[3..])
    else if 0xF0 <= bs[0] < 0xF8 && |bs| >= 4
         && Continuation(bs[1]) && Continuation(bs[2]) && Continuation(bs[3]) then
      var n := Join4(bs[0], bs[1], bs[2], bs[3]);
      if n < 0x1_0000 || n >= 0x11_0000 then Bad else Got(n as char, bs[4..])
    else Bad
  }

  function Utf8(s: string): seq<byte> {
    if s == "" then [] else EncodeChar(s[0]) + Utf8(s[1..])
  }

  function FromUtf8(bs: seq<byte>): Option<string>
    decreases |bs|
  {
    if bs == [] then Some("")
    else match DecodeChar(bs)
      case Bad => None
      case Got(c, rest) =>
        match FromUtf8(rest)
        case None => None
        case Some(s) => Some([c] + s)
  }

  lemma JoinInverts(n: nat)
    ensures Join2(0xC0 + n / 64, 0x80 + n % 64) == n
    ensures Join3(0xE0 + n / 4096, 0x80 + n / 64 % 64, 0x80 + n % 64) == n
    ensures Join4(0xF0 + n / 0x4_0000, 0x80 + n / 4096 % 64, 0x80 + n / 64 % 64, 0x80 + n % 64) == n
  {
    var (a, b, c) := (n / 64, n / 4096, n / 0x4_0000);
    assert a / 64 == b && b / 64 == c;
  }

  lemma DecodeCharInverts(c: char, rest: seq<byte>)
    ensures DecodeChar(EncodeChar(c) + rest) == Got(c, rest)
  {
    var n, bs := c as int, EncodeChar(c) + rest;
    JoinInverts(n);
    if n < 0x80 {
      assert bs[1..] == rest;
    } else if n < 0x800 {
      assert bs[2..] == rest;
    } else if n < 0x1_0000 {
      assert bs[3..] == rest;
    } else {
      assert bs[4..] == rest;
    }
  }

  lemma {:induction false} Utf8RoundTrip(s: string)
    ensures FromUtf8(Utf8(s)) == Some(s)
  {
    if s != "" {
      DecodeCharInverts(s[0], Utf8(s[1..]));
      Utf8RoundTrip(s[1..]);
      assert [s[0]] + s[1..] == s;
    }
  }

  function EncodeText(s: string): seq<byte> {
    LeBytes(|Utf8(s)|, 8) + Utf8(s)
  }

  function Text(bs: seq<byte>): Parsed<string> {
    match Uint(8, bs)
    case Bad => Bad
    case Got(n, rest) =>
      if |rest| < n then Bad
      else match FromUtf8(rest[..n])
        case None => Bad
        case Some(s) => Got(s, rest[n..])
  }

  lemma TextInverts(s: string, rest: seq<byte>)
    requires |Utf8(s)| < MAX_U64
    ensures Text(EncodeText(s) + rest) == Got(s, rest)
  {
    Widths();
    var body := Utf8(s);
    assert EncodeText(s) + rest == LeBytes(|body|, 8) + (body + rest);
    UintInverts(|body|, 8, body + rest);
    assert (body + rest)[..|body|] == body && (body + rest)[|body|..] == rest;
    Utf8RoundTrip(s);
  }

  // ---------------------------------------------------------------- messages

  datatype TestResult = TestResult(testId: u32, status: byte, durationNs: u64, message: string)

  datatype FixtureInfo = FixtureInfo(name: string, scope: string)

  datatype TestPayload = TestPayload(
    testId: u32, filePath: string, testName: string, isAsync: bool,
    fixtures: seq<FixtureInfo>, logFd: i32, debugSocketPath: string)

  const STATUS_PASS: byte := 0
  const STATUS_SKIP: byte := 2
  const STATUS_HARNESS_ERROR: byte := 5
  const CMD_FORK: byte := 0x01

  function EncodeResult(r: TestResult): seq<byte> {
    LeBytes(r.testId, 4) + ([r.status] + (LeBytes(r.durationNs, 8) + EncodeText(r.message)))
  }

  /** `bincode::deserialize` accepts trailing bytes. */
  function DecodeResult(bs: seq<byte>): Option<TestResult> {
    match Uint(4, bs)
    case Bad => None
    case Got(id, r1) =>
      if r1 == [] then None
      else match Uint(8, r1[1..])
        case Bad => None
        case Got(ns, r2) =>
          match Text(r2)
          case Bad => None
          case Got(msg, _) =>
            Widths();
            Some(TestResult(id, r1[0], ns, msg))
  }

  lemma ResultRoundTrip(r: TestResult)
    requires |EncodeResult(r)| < 0x1_0000_0000
    ensures DecodeResult(EncodeResult(r)) == Some(r)
  {
    Widths();
    var t2 := EncodeText(r.message);
    var t1 := LeBytes(r.durationNs, 8) + t2;
    UintInverts(r.testId, 4, [r.status] + t1);
    assert ([r.status] + t1)[1..] == t1;
    UintInverts(r.durationNs, 8, t2);
    TextInverts(r.message, []);
    assert t2 + [] == t2;
  }

  /** Where each field of a result lies: id, status, nanoseconds, length of the text, text. */
  lemma ResultLayout(r: TestResult)
    requires |Utf8(r.message)| < MAX_U64
    ensures var b := EncodeResult(r);
            && |b| == 21 + |Utf8(r.message)|
            && LeValue(b[..4]) == r.testId && b[4] == r.status && LeValue(b[5..13]) == r.durationNs
            && LeValue(b[13..21]) == |Utf8(r.message)| && b[21..] == Utf8(r.message)
  {
    Widths();
    var text := Utf8(r.message);
    LeRoundTrip(r.testId, 4);
    LeRoundTrip(r.durationNs, 8);
    LeRoundTrip(|text|, 8);
    FieldsOf(LeBytes(r.testId, 4), [r.status], LeBytes(r.durationNs, 8), LeBytes(|text|, 8), text);
  }

  lemma FieldsOf(id: seq<byte>, status: seq<byte>, ns: seq<byte>, len: seq<byte>, text: seq<byte>)
    requires |id| == 4 && |status| == 1 && |ns| == 8 && |len| == 8
    ensures var b := id + (status + (ns + (len + text)));
            |b| == 21 + |text| && b[..4] == id && b[4] == status[0] && b[5..13] == ns && b[13..21] == len && b[21..] == text
  {}

  /** ASCII text is its own encoding. */
  lemma {:induction false} Utf8Ascii(s: string)
    requires forall c :: c in s ==> c as int < 0x80
    ensures |Utf8(s)| == |s| && forall i :: 0 <= i < |s| ==> Utf8(s)[i] == s[i] as int
  {
    if s != "" {
      assert s[0] in s && forall c :: c in s[1..] ==> c in s;
      Utf8Ascii(s[1..]);
    }
  }

  function EncodeFixture(f: FixtureInfo): seq<byte> { EncodeText(f.name) + EncodeText(f.scope) }

  function Fixture(bs: seq<byte>): Parsed<FixtureInfo> {
    match Text(bs)
    case Bad => Bad
    case Got(name, r1) =>
      match Text(r1)
      case Bad => Bad
      case Got(scope, r2) => Got(FixtureInfo(name, scope), r2)
  }

  lemma FixtureInverts(f: FixtureInfo, rest: seq<byte>)
    requires |EncodeFixture(f)| < MAX_U64
    ensures Fixture(EncodeFixture(f) + rest) == Got(f, rest)
  {
    Assoc(EncodeText(f.name), EncodeText(f.scope), rest);
    TextInverts(f.name, EncodeText(f.scope) + rest);
    TextInverts(f.scope, rest);
  }

  function EncodeFixtures(fs: seq<FixtureInfo>): seq<byte> {
    if fs == [] then [] else EncodeFixture(fs[0]) + EncodeFixtures(fs[1..])
  }

  function Fixtures(n: nat, bs: seq<byte>): Parsed<seq<FixtureInfo>>
    decreases n
  {
    if n == 0 then Got([], bs)
    else match Fixture(bs)
      case Bad => Bad
      case Got(f, r1) =>
        match Fixtures(n - 1, r1)
        case Bad => Bad
        case Got(fs, r2) => Got([f] + fs, r2)
  }

  lemma {:induction false} FixturesInvert(fs: seq<FixtureInfo>, rest: seq<byte>)
    requires |EncodeFixtures(fs)| < MAX_U64
    ensures Fixtures(|fs|, EncodeFixtures(fs) + rest) == Got(fs, rest)
  {
    if fs == [] {
      assert EncodeFixtures(fs) + rest == rest;
    } else {
      var tail := EncodeFixtures(fs[1..]) + rest;
      Assoc(EncodeFixture(fs[0]), EncodeFixtures(fs[1..]), rest);
      FixtureInverts(fs[0], tail);
      FixturesInvert(fs[1..], rest);
      FixturesStep(|fs| - 1, EncodeFixtures(fs) + rest, fs[0], tail, fs[1..], rest);
      assert [fs[0]] + fs[1..] == fs;
    }
  }

  lemma FixturesStep(n: nat, bs: seq<byte>, f: FixtureInfo, tail: seq<byte>, fs: seq<FixtureInfo>, rest: seq<byte>)
    requires Fixture(bs) == Got(f, tail) && Fixtures(n, tail) == Got(fs, rest)
    ensures Fixtures(n + 1, bs) == Got([f] + fs, rest)
  {}

  /** Two's complement. */
  function EncodeI32(n: i32): seq<byte> { LeBytes(if n < 0 then n + 0x1_0000_0000 else n, 4) }

  function I32(bs: seq<byte>): Parsed<i32> {
    match Uint(4, bs)
    case Bad => Bad
    case Got(n, rest) => Widths(); Got(if n < 0x8000_0000 then n else n - 0x1_0000_0000, rest)
  }

  lemma I32Inverts(n: i32, rest: seq<byte>)
    ensures I32(EncodeI32(n) + rest) == Got(n, rest)
  {
    Widths();
    UintInverts(if n < 0 then n + 0x1_0000_0000 else n, 4, rest);
  }

  function EncodePayload(p: TestPayload): seq<byte> {
    LeBytes(p.testId, 4) + (EncodeText(p.filePath) + (EncodeText(p.testName) +
    ([if p.isAsync then 1 else 0] + EncodePayloadTail(p))))
  }

  function DecodePayload(bs: seq<byte>): Option<TestPayload> {
    match Uint(4, bs)
    case Bad => None
    case Got(id, r1) =>
      match Text(r1)
      case Bad => None
      case Got(path, r2) =>
        match Text(r2)
        case Bad => None
        case Got(name, r3) =>
          if r3 == [] || r3[0] > 1 then None
          else Widths(); DecodePayloadTail(id, path, name, r3[0] == 1, r3[1..])
  }

  function DecodePayloadTail(id: u32, path: string, name: string, isAsync: bool, bs: seq<byte>): Option<TestPayload>
  {
    match Uint(8, bs)
    case Bad => None
    case Got(n, r1) =>
      match Fixtures(n, r1)
      case Bad => None
      case Got(fs, r2) =>
        match I32(r2)
        case Bad => None
        case Got(fd, r3) =>
          match Text(r3)
          case Bad => None
          case Got(sock, _) => Some(TestPayload(id, path, name, isAsync, fs, fd, sock))
  }

  lemma {:induction false} FixtureCount(fs: seq<FixtureInfo>)
    ensures |fs| <= |EncodeFixtures(fs)|
  {
    if fs != [] {
      FixtureCount(fs[1..]);
    }
  }

  function EncodePayloadTail(p: TestPayload): seq<byte> {
    LeBytes(|p.fixtures|, 8) + (EncodeFixtures(p.fixtures) + (EncodeI32(p.logFd) + EncodeText(p.debugSocketPath)))
  }

  lemma PayloadTailInverts(p: TestPayload)
    requires |EncodePayloadTail(p)| < 0x1_0000_0000
    ensures DecodePayloadTail(p.testId, p.filePath, p.testName, p.isAsync, EncodePayloadTail(p)) == Some(p)
  {
    Widths();
    var t6 := EncodeText(p.debugSocketPath);
    var t5 := EncodeI32(p.logFd) + t6;
    FixtureCount(p.fixtures);
    UintInverts(|p.fixtures|, 8, EncodeFixtures(p.fixtures) + t5);
    FixturesInvert(p.fixtures, t5);
    I32Inverts(p.logFd, t6);
    TextInverts(p.debugSocketPath, []);
    assert t6 + [] == t6;
  }

  lemma PayloadRoundTrip(p: TestPayload)
    requires |EncodePayload(p)| < 0x1_0000_0000
    ensures DecodePayload(EncodePayload(p)) == Some(p)
  {
    Widths();
    var t3 := EncodePayloadTail(p);
    var flag: seq<byte> := [if p.isAsync then 1 else 0];
    var t2 := EncodeText(p.testName) + (flag + t3);
    UintInverts(p.testId, 4, EncodeText(p.filePath) + t2);
    TextInverts(p.filePath, t2);
    TextInverts(p.testName, flag + t3);
    assert (flag + t3)[1..] == t3;
    PayloadTailInverts(p);
  }

  /** The order of a payload's fields: id, file, name, flag, fixtures, descriptor, debug socket. */
  lemma PayloadOrder(p: TestPayload) returns (r1: seq<byte>, r2: seq<byte>, r3: seq<byte>, r4: seq<byte>, r5: seq<byte>)
    requires |EncodePayload(p)| < 0x1_0000_0000
    ensures var b := EncodePayload(p);
            && LeValue(b[..4]) == p.testId
            && Text(b[4..]) == Got(p.filePath, r1) && Text(r1) == Got(p.testName, r2)
            && r2 != [] && r2[0] == (if p.isAsync then 1 else 0)
            && Uint(8, r2[1..]) == Got(|p.fixtures|, r3) && Fixtures(|p.fixtures|, r3) == Got(p.fixtures, r4)
            && I32(r4) == Got(p.logFd, r5) && Text(r5) == Got(p.debugSocketPath, [])
  {
    Widths();
    var flag: seq<byte> := [if p.isAsync then 1 else 0];
    r5 := EncodeText(p.debugSocketPath);
    r4 := EncodeI32(p.logFd) + r5;
    r3 := EncodeFixtures(p.fixtures) + r4;
    r2 := flag + EncodePayloadTail(p);
    r1 := EncodeText(p.testName) + r2;
    UintInverts(p.testId, 4, EncodeText(p.filePath) + r1);
    TextInverts(p.filePath, r1);
    TextInverts(p.testName, r2);
    TailOrder(p, r3, r4, r5);
    assert r2[1..] == EncodePayloadTail(p);
  }

  lemma TailOrder(p: TestPayload, r3: seq<byte>, r4: seq<byte>, r5: seq<byte>)
    requires |EncodePayloadTail(p)| < 0x1_0000_0000
    requires r5 == EncodeText(p.debugSocketPath) && r4 == EncodeI32(p.logFd) + r5 && r3 == EncodeFixtures(p.fixtures) + r4
    ensures Uint(8, EncodePayloadTail(p)) == Got(|p.fixtures|, r3) && Fixtures(|p.fixtures|, r3) == Got(p.fixtures, r4)
    ensures I32(r4) == Got(p.logFd, r5) && Text(r5) == Got(p.debugSocketPath, [])
  {
    Widths();
    FixtureCount(p.fixtures);
    UintInverts(|p.fixtures|, 8, r3);
    FixturesInvert(p.fixtures, r4);
    I32Inverts(p.logFd, r5);
    TextInverts(p.debugSocketPath, []);
    assert r5 + [] == r5;
  }

  // ------------------------------------------------------------------ frames

  /** `encode_with_length`: the length is cast to 32 bits. */
  function Frame(body: seq<byte>): (f: seq<byte>)
    ensures |f| == 4 + |body|
  {
    LeBytes(|body|, 4) + body
  }

  /** The buffer a worker sends: reading it back gives the result it was made from. */
  method EncodeWithLength(r: TestResult) returns (buffer: seq<byte>)
    ensures buffer == Frame(EncodeResult(r))
    ensures |EncodeResult(r)| < 0x1_0000_0000 ==>
              ReadFrame(buffer) == Got(EncodeResult(r), []) && DecodeResult(ReadFrame(buffer).value) == Some(r)
  {
    var payload := EncodeResult(r);
    buffer := [];
    buffer := buffer + LeBytes(|payload|, 4);
    buffer := buffer + payload;
    assert buffer == Frame(payload);
    if |payload| < 0x1_0000_0000 {
      FrameReadsBack(payload);
      ResultRoundTrip(r);
    }
  }

  lemma FrameReadsBack(body: seq<byte>)
    requires |body| < 0x1_0000_0000
    ensures ReadFrame(Frame(body)) == Got(body, [])
  {
    ReadFrameInverts(body, []);
    assert Frame(body) + [] == Frame(body);
  }

  /** What two successive `read_exact` calls make of the bytes a socket still delivers. */
  function ReadFrame(avail: seq<byte>): (p: Parsed<seq<byte>>)
    ensures p.Got? ==> |p.rest| < |avail|
  {
    match Uint(4, avail)
    case Bad => Bad
    case Got(len, rest) =>
      if |rest| < len then Bad else Got(rest[..len], rest[len..])
  }

  lemma ReadFrameInverts(body: seq<byte>, rest: seq<byte>)
    requires |body| < 0x1_0000_0000
    ensures ReadFrame(Frame(body) + rest) == Got(body, rest)
  {
    Widths();
    assert Frame(body) + rest == LeBytes(|body|, 4) + (body + rest);
    UintInverts(|body|, 4, body + rest);
    assert (body + rest)[..|body|] == body && (body + rest)[|body|..] == rest;
  }

  /** A proper prefix of a frame is never mistaken for a frame. */
  lemma PartialFrameUnreadable(body: seq<byte>, k: nat)
    requires |body| < 0x1_0000_0000
    requires k < |Frame(body)|
    ensures ReadFrame(Frame(body)[..k]).Bad?
  {
    Widths();
    if k >= 4 {
      assert Frame(body)[..k][..4] == LeBytes(|body|, 4);
      LeRoundTrip(|body|, 4);
    }
  }
}
