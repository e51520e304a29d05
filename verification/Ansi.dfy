/** Removing terminal escape sequences and NULs from failure messages. */
module Ansi {

  const ESC: char := '\U{1b}'
  const NUL: char := '\0'

  predicate IsLetter(c: char) { 'a' <= c <= 'z' || 'A' <= c <= 'Z' }

  /** Drop everything up to and including the first letter. */
  function SkipCsi(s: string): (r: string)
    ensures |r| <= |s|
  {
    if s == "" then "" else if IsLetter(s[0]) then s[1..] else SkipCsi(s[1..])
  }

  function Strip(s: string): string
    decreases |s|
  {
    if s == "" then ""
    else if s[0] == ESC then
      if |s| > 1 && s[1] == '[' then Strip(SkipCsi(s[2..])) else Strip(s[1..])
    else if s[0] == NUL then Strip(s[1..])
    else [s[0]] + Strip(s[1..])
  }

  /** The scanner as a loop over a peekable character iterator. */
  method StripAnsiCodes(s: string) returns (result: string)
    ensures result == Strip(s)
  {
    result := "";
    var i := 0;
    while i < |s|
      invariant 0 <= i <= |s|
      invariant result + Strip(s[i..]) == Strip(s)
    {
      var c := s[i];
      assert s[i..][1..] == s[i + 1..];
      i := i + 1;
      if c == ESC {
        if i < |s| && s[i] == '[' {
          i := i + 1;
          assert s[i - 2..][2..] == s[i..];
          ghost var body := s[i..];
          var stop := false;
          while i < |s| && !stop
            invariant 0 <= i <= |s|
            invariant SkipCsi(body) == if stop then s[i..] else SkipCsi(s[i..])
            decreases |s| - i
          {
            assert s[i..][1..] == s[i + 1..];
            var next := s[i];
            i := i + 1;
            if IsLetter(next) {
              stop := true;
            }
          }
        }
      } else if c != NUL {
        result := result + [c];
      }
    }
  }

  // ------------------------------------------------------------ what it undoes

  /** Plain text, or a CSI sequence with a letter as its final byte. */
  datatype Chunk = Plain(text: string) | Csi(body: string, final: char)
  {
    ghost predicate Valid() {
      match this
      case Plain(text) => Clean(text)
      case Csi(body, final) => IsLetter(final) && forall c :: c in body ==> !IsLetter(c)
    }
  }

  ghost predicate Clean(s: string) { ESC !in s && NUL !in s }

  function Render(chunks: seq<Chunk>): string {
    if chunks == [] then ""
    else (match chunks[0]
          case Plain(text) => text
          case Csi(body, final) => [ESC, '['] + body + [final]) + Render(chunks[1..])
  }

  function TextOf(chunks: seq<Chunk>): string {
    if chunks == [] then ""
    else (if chunks[0].Plain? then chunks[0].text else "") + TextOf(chunks[1..])
  }

  lemma {:induction false} StripPlain(text: string, rest: string)
    requires Clean(text)
    ensures Strip(text + rest) == text + Strip(rest)
  {
    if text == "" {
      assert text + rest == rest;
    } else {
      assert (text + rest)[1..] == text[1..] + rest;
      StripPlain(text[1..], rest);
    }
  }

  lemma {:induction false} SkipBody(body: string, final: char, rest: string)
    requires IsLetter(final) && forall c :: c in body ==> !IsLetter(c)
    ensures SkipCsi(body + [final] + rest) == rest
  {
    var s := body + [final] + rest;
    if body == "" {
      assert s[1..] == rest;
    } else {
      assert body[0] in body;
      assert s[1..] == body[1..] + [final] + rest;
      SkipBody(body[1..], final, rest);
    }
  }

  lemma StripCsi(body: string, final: char, rest: string)
    requires IsLetter(final) && forall c :: c in body ==> !IsLetter(c)
    ensures Strip([ESC, '['] + body + [final] + rest) == Strip(rest)
  {
    assert ([ESC, '['] + body + [final] + rest)[2..] == body + [final] + rest;
    SkipBody(body, final, rest);
  }

  /** Stripping a rendering leaves exactly the text. */
  lemma {:induction false} StripUndoesRender(chunks: seq<Chunk>)
    requires forall c :: c in chunks ==> c.Valid()
    ensures Strip(Render(chunks)) == TextOf(chunks)
  {
    if chunks != [] {
      assert chunks[0] in chunks;
      var rest := Render(chunks[1..]);
      StripUndoesRender(chunks[1..]);
      match chunks[0]
      case Plain(text) => StripPlain(text, rest);
      case Csi(body, final) => StripCsi(body, final, rest);
    }
  }

  /** On any input the output is clean, and stripping it again changes nothing. */
  lemma {:induction false} StripCleans(s: string)
    ensures Clean(Strip(s))
    decreases |s|
  {
    if s == "" {
    } else if s[0] == ESC {
      if |s| > 1 && s[1] == '[' {
        StripCleans(SkipCsi(s[2..]));
      } else {
        StripCleans(s[1..]);
      }
    } else {
      StripCleans(s[1..]);
    }
  }

  lemma StripIdempotent(s: string)
    ensures Strip(Strip(s)) == Strip(s)
  {
    StripCleans(s);
    StripPlain(Strip(s), "");
    assert Strip(s) + "" == Strip(s);
  }

  // ------------------------------------------------------ lone escapes, open sequences

  /** The text without escapes and NULs. */
  function Kept(s: string): string {
    if s == "" then "" else (if s[0] == ESC || s[0] == NUL then "" else [s[0]]) + Kept(s[1..])
  }

  /** Where no control sequence begins, exactly the ESC and NUL characters are removed. */
  lemma {:induction false} StripWithoutCsi(s: string)
    requires forall i :: 0 <= i < |s| - 1 && s[i] == ESC ==> s[i + 1] != '['
    ensures Strip(s) == Kept(s)
  {
    if s != "" {
      StripWithoutCsi(s[1..]);
    }
  }

  lemma {:induction false} SkipAll(body: string)
    requires forall c :: c in body ==> !IsLetter(c)
    ensures SkipCsi(body) == ""
  {
    if body != "" {
      assert body[0] in body;
      SkipAll(body[1..]);
    }
  }

  /** A control sequence that never ends takes the rest of the text with it. */
  lemma StripUnfinished(text: string, body: string)
    requires Clean(text) && forall c :: c in body ==> !IsLetter(c)
    ensures Strip(text + ([ESC, '['] + body)) == text
  {
    StripPlain(text, [ESC, '['] + body);
    assert ([ESC, '['] + body)[2..] == body;
    SkipAll(body);
    assert Strip([ESC, '['] + body) == Strip("");
  }
}
