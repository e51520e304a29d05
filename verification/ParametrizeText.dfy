/** Parametrize decorators as they are written, and the names they provide; likewise patches. */
module ParametrizeText {
  import opened Wire
  import opened Strings
  import opened Discovery

  // -------------------------------------------------------------- which decorators

  /** A parametrize decorator is recognised by the last attribute of what is called. */
  lemma {:induction false} IsParametrizeIff(e: Expr)
    ensures IsParametrize(e) <==> Callee(e).Attribute? && Callee(e).attr == "parametrize"
  {
    if e.Call? {
      IsParametrizeIff(e.func);
    }
  }

  /** Any other decorator provides no names. */
  lemma OthersProvideNothing(e: Expr)
    requires LastName(Callee(e)) != Some("parametrize") || !e.Call?
    ensures ParametrizeNames(e) == []
  {
    IsParametrizeIff(e);
  }

  // ------------------------------------------------------------------ the string form

  ghost predicate IsBlank(s: string) { forall c :: c in s ==> IsWhitespace(c) }

  /** One name, or nothing, with blanks around it. */
  datatype Piece = Piece(left: string, name: string, right: string)
  {
    ghost predicate Valid() {
      && IsBlank(left) && IsBlank(right) && ',' !in name
      && (name != "" ==> !IsWhitespace(name[0]) && !IsWhitespace(name[|name| - 1]))
    }

    function Text(): string { left + name + right }
  }

  function Texts(ps: seq<Piece>): (ts: seq<string>)
    ensures |ts| == |ps| && forall i :: 0 <= i < |ps| ==> ts[i] == ps[i].Text()
  {
    seq(|ps|, i requires 0 <= i < |ps| => ps[i].Text())
  }

  /** The names, without the empty ones. */
  function NamesIn(ps: seq<Piece>): seq<string> {
    if ps == [] then [] else (if ps[0].name == "" then [] else [ps[0].name]) + NamesIn(ps[1..])
  }

  lemma {:induction false} SplitFirst(w: string, rest: string, sep: char)
    requires sep !in w
    ensures Split(w + ([sep] + rest), sep) == [w] + Split(rest, sep)
  {
    var s := w + ([sep] + rest);
    if w == "" {
      assert s[1..] == rest;
    } else {
      assert w[0] in w && s[0] == w[0] && s[1..] == w[1..] + ([sep] + rest);
      SplitFirst(w[1..], rest, sep);
      assert [w[0]] + w[1..] == w;
    }
  }

  lemma {:induction false} SplitAlone(w: string, sep: char)
    requires sep !in w
    ensures Split(w, sep) == [w]
  {
    if w != "" {
      assert w[0] in w;
      SplitAlone(w[1..], sep);
      assert [w[0]] + w[1..] == w;
    }
  }

  /** Splitting undoes joining. */
  lemma {:induction false} SplitJoin(ws: seq<string>, sep: char)
    requires ws != [] && forall w :: w in ws ==> sep !in w
    ensures Split(Join(ws, sep), sep) == ws
  {
    assert ws[0] in ws;
    if |ws| == 1 {
      SplitAlone(ws[0], sep);
    } else {
      SplitJoin(ws[1..], sep);
      SplitFirst(ws[0], Join(ws[1..], sep), sep);
      Assoc(ws[0], [sep], Join(ws[1..], sep));
    }
  }

  lemma {:induction false} TrimStartBlank(b: string, s: string)
    requires IsBlank(b)
    ensures TrimStart(b + s) == TrimStart(s)
  {
    if b == "" {
      assert b + s == s;
    } else {
      assert b[0] in b && (b + s)[1..] == b[1..] + s;
      TrimStartBlank(b[1..], s);
    }
  }

  lemma {:induction false} TrimEndBlank(s: string, b: string)
    requires IsBlank(b)
    ensures TrimEnd(s + b) == TrimEnd(s)
  {
    if b == "" {
      assert s + b == s;
    } else {
      var k := |b| - 1;
      assert b[k] in b && (s + b)[..|s + b| - 1] == s + b[..k] && (s + b)[|s + b| - 1] == b[k];
      TrimEndBlank(s, b[..k]);
    }
  }

  lemma TrimPiece(p: Piece)
    requires p.Valid()
    ensures Trim(p.Text()) == p.name
  {
    Assoc(p.left, p.name, p.right);
    TrimStartBlank(p.left, p.name + p.right);
    if p.name == "" {
      TrimStartBlank(p.right, "");
      assert p.name + p.right == p.right && p.right + "" == p.right;
    } else {
      TrimEndBlank(p.name, p.right);
    }
  }

  lemma {:induction false} TrimPieces(ps: seq<Piece>)
    requires forall p :: p in ps ==> p.Valid()
    ensures NonEmptyTrimmed(Texts(ps)) == NamesIn(ps)
  {
    if ps != [] {
      assert ps[0] in ps;
      TrimPiece(ps[0]);
      assert Texts(ps)[1..] == Texts(ps[1..]);
      TrimPieces(ps[1..]);
    }
  }

  lemma NoComma(p: Piece)
    requires p.Valid()
    ensures ',' !in p.Text()
  {
    assert !IsWhitespace(',');
  }

  /** A call of `….parametrize` provides what its first argument names. */
  lemma FirstArgument(owner: Expr, first: Expr, more: seq<Expr>, keywords: seq<Keyword>)
    ensures ParametrizeNames(Call(Attribute(owner, "parametrize"), [first] + more, keywords)) ==
            match first
            case Str(s) => NonEmptyTrimmed(Split(s, ','))
            case List(elts) => StringElements(elts)
            case Tuple(elts) => StringElements(elts)
            case _ => []
  {
    assert IsParametrize(Attribute(owner, "parametrize"));
    assert ([first] + more)[0] == first;
  }

  /** A string of names, comma-separated with blanks anywhere around them, provides exactly the names, in order. */
  lemma StringFormInverts(owner: Expr, ps: seq<Piece>, more: seq<Expr>, keywords: seq<Keyword>)
    requires forall p :: p in ps ==> p.Valid()
    ensures ParametrizeNames(Call(Attribute(owner, "parametrize"), [Str(Join(Texts(ps), ','))] + more, keywords)) == NamesIn(ps)
  {
    FirstArgument(owner, Str(Join(Texts(ps), ',')), more, keywords);
    if ps != [] {
      forall w | w in Texts(ps)
        ensures ',' !in w
      {
        var i :| 0 <= i < |Texts(ps)| && Texts(ps)[i] == w;
        assert ps[i] in ps;
        NoComma(ps[i]);
      }
      SplitJoin(Texts(ps), ',');
      TrimPieces(ps);
    } else {
      assert Split("", ',') == [""] && Trim("") == "";
      assert [""][1..] == [];
    }
  }

  // -------------------------------------------------------------- list and tuple form

  /** The elements of a list: strings, and things that are not. */
  function Elements(items: seq<Option<string>>): seq<Expr> {
    if items == [] then []
    else [if items[0].Some? then Str(items[0].value) else Other] + Elements(items[1..])
  }

  function Given(items: seq<Option<string>>): seq<string> {
    if items == [] then [] else (if items[0].Some? then [items[0].value] else []) + Given(items[1..])
  }

  lemma {:induction false} ElementsInvert(items: seq<Option<string>>)
    ensures StringElements(Elements(items)) == Given(items)
  {
    if items != [] {
      assert Elements(items)[1..] == Elements(items[1..]);
      ElementsInvert(items[1..]);
    }
  }

  /** A list or tuple of names provides exactly its strings, as they are. */
  lemma ListFormInverts(owner: Expr, items: seq<Option<string>>, more: seq<Expr>, keywords: seq<Keyword>)
    ensures ParametrizeNames(Call(Attribute(owner, "parametrize"), [List(Elements(items))] + more, keywords)) == Given(items)
    ensures ParametrizeNames(Call(Attribute(owner, "parametrize"), [Tuple(Elements(items))] + more, keywords)) == Given(items)
  {
    FirstArgument(owner, List(Elements(items)), more, keywords);
    FirstArgument(owner, Tuple(Elements(items)), more, keywords);
    ElementsInvert(items);
  }

  // ----------------------------------------------------------------------- patches

  /** What the name before the parentheses is: `patch`, or `mock.patch` and the like. */
  ghost predicate IsPatchName(f: Expr) { f == Name("patch") || (f.Attribute? && f.attr == "patch") }

  /** `@patch(target)` passes a mock, whatever other options it has; a replacement, positional or as `new`, stops that. */
  lemma PatchForms(f: Expr, target: Expr, replacement: Expr, more: seq<Expr>, options: seq<Keyword>, pre: seq<Keyword>, post: seq<Keyword>)
    requires IsPatchName(f) && forall k :: k in options ==> k.arg != Some("new")
    ensures PatchInjects(Call(f, [target], options)) && PatchInjects(Call(f, [], options))
    ensures !PatchInjects(Call(f, [target, replacement] + more, options))
    ensures !PatchInjects(Call(f, [target], pre + [Keyword(Some("new"), replacement)] + post))
    ensures !PatchInjects(f)
  {
    var ks := pre + [Keyword(Some("new"), replacement)] + post;
    assert ks[|pre|] in ks;
  }
}
