/** What a JUnit case says about a finish event: names, time and failure text. */
module JunitCase {
  import opened Wire
  import opened Strings
  import opened Ansi
  import opened Reporting

  // ---------------------------------------------------------------------- names

  /** The first separator is the one after a part without colons. */
  lemma FirstSeparator(head: string, rest: string)
    requires ':' !in head
    ensures FindFrom(head + "::" + rest, "::", 0) == Some(|head|)
  {
    var s := head + "::" + rest;
    assert Occurs(s, "::", |head|);
    forall i: nat | i < |head|
      ensures !Occurs(s, "::", i)
    {
      assert s[i] == head[i] && head[i] in head;
      assert i + 2 <= |s| ==> s[i..i + 2][0] == s[i];
    }
  }

  lemma {:induction false} RemoveShortens(s: string, pat: string)
    requires pat != ""
    ensures |Remove(s, pat)| <= |s|
    ensures Contains(s, pat) ==> |Remove(s, pat)| <= |s| - |pat|
    decreases |s|
  {
    match FindFrom(s, pat, 0)
    case None =>
    case Some(i) => RemoveShortens(s[i + |pat|..], pat);
  }

  /** Where `.py` ends a text, it overlaps no other occurrence. */
  lemma NoOverlap(stem: string, i: nat)
    requires i < |stem| && Occurs(stem + ".py", ".py", i)
    ensures i + 3 <= |stem|
  {
    var s := stem + ".py";
    assert s[i..i + 3][0] == s[i] && s[i..i + 3][1] == s[i + 1] && s[i..i + 3][2] == s[i + 2];
  }

  lemma OccursInside(stem: string, i: nat)
    requires i < |stem| && Occurs(stem + ".py", ".py", i)
    ensures Occurs(stem, ".py", i)
  {
    NoOverlap(stem, i);
    assert stem[i..i + 3] == (stem + ".py")[i..i + 3];
  }

  /** Removing `.py` everywhere removes just the extension exactly if there is no other. */
  lemma RemoveExtensionIff(stem: string)
    ensures Remove(stem + ".py", ".py") == stem <==> !Contains(stem, ".py")
  {
    var s := stem + ".py";
    assert s[|stem|..|stem| + 3] == ".py";
    assert Occurs(s, ".py", |stem|);
    var i := FindFrom(s, ".py", 0).value;
    if Contains(stem, ".py") {
      var k: nat :| Occurs(stem, ".py", k);
      assert s[k..k + 3] == stem[k..k + 3];
      assert Occurs(s, ".py", k);
      NoOverlap(stem, i);
      var rest := s[i + 3..];
      assert rest[|stem| - i - 3..] == ".py";
      assert rest[|stem| - i - 3..|stem| - i - 3 + 3] == ".py";
      assert Occurs(rest, ".py", |stem| - i - 3);
      RemoveShortens(rest, ".py");
    } else {
      if i < |stem| {
        OccursInside(stem, i);
      }
      assert s[..i] == stem && s[i + 3..] == "";
      assert Remove("", ".py") == "";
    }
  }

  /**
   The case of `dir/file.py::rest` is named `rest`. Its class is the path with dots
   for slashes exactly if `.py` does not occur in that, as it does when the name of
   a directory or file below the first level starts with `py`.
   */
  lemma CaseNames(stem: string, rest: string, status: string, ms: nat, message: Option<string>)
    requires ':' !in stem
    ensures var c := CaseOf(stem + ".py" + "::" + rest, status, ms, message);
            var dotted := ReplaceChar(stem, '/', '.');
            && c.name == rest
            && (c.classname == dotted <==> !Contains(dotted, ".py"))
  {
    var head := stem + ".py";
    var id := head + "::" + rest;
    FirstSeparator(head, rest);
    assert id[..|head|] == head && id[|head| + 2..] == rest;
    assert ReplaceChar(head, '/', '.') == ReplaceChar(stem, '/', '.') + ".py";
    RemoveExtensionIff(ReplaceChar(stem, '/', '.'));
  }

  /** A directory or file below the first level whose name starts with `py` spoils the class name. */
  lemma ClassNameSpoiled(dir: string, more: string, rest: string)
    requires ':' !in dir && ':' !in more
    ensures var stem := dir + "/py" + more;
            ClassName(stem + ".py" + "::" + rest) != ReplaceChar(stem, '/', '.')
  {
    var stem := dir + "/py" + more;
    var dotted := ReplaceChar(stem, '/', '.');
    assert dotted[|dir|..|dir| + 3] == ".py";
    assert Occurs(dotted, ".py", |dir|);
    CaseNames(stem, rest, "pass", 0, None);
  }

  // ----------------------------------------------------------------- time and failure

  /** Seconds; no failure for a pass; otherwise the message without its control sequences. */
  lemma CaseFacts(id: string, status: string, ms: nat, chunks: seq<Chunk>)
    requires forall c :: c in chunks ==> c.Valid()
    ensures var c := CaseOf(id, status, ms, Some(Render(chunks)));
            && c.time * 1000.0 == ms as real
            && c.failure == if status == "pass" then None else Some(Failure("Test failed", TextOf(chunks)))
  {
    StripUndoesRender(chunks);
  }

  lemma CaseWithoutMessage(id: string, ms: nat)
    ensures CaseOf(id, "fail", ms, None).failure == Some(Failure("Test failed", "Test failed"))
  {
    var text := "Test failed";
    PlainStays(text);
    assert "fail"[0] != "pass"[0];
  }

  lemma PlainStays(text: string)
    requires Clean(text)
    ensures Strip(text) == text
  {
    StripPlain(text, "");
    assert text + "" == text;
  }

  /** Without a separator the whole id is the name. */
  lemma CaseWithoutClass(id: string, status: string, ms: nat, message: Option<string>)
    requires ':' !in id
    ensures CaseOf(id, status, ms, message).name == id
  {
    forall i: nat
      ensures !Occurs(id, "::", i)
    {
      if i + 2 <= |id| {
        assert id[i..i + 2][0] == id[i] && id[i] in id;
      }
    }
  }

  /** The end of a run writes the suite `tach`, with its time in seconds, and empties the buffer. */
  lemma SuiteWritten(j: Junit, passed: nat, failed: nat, skipped: nat, ms: nat)
    ensures var j' := JunitStep(j, RunFinished(passed, failed, skipped, ms));
            && j'.cases == [] && j'.report.Some?
            && j'.report.value.name == "tach" && j'.report.value.time * 1000.0 == ms as real
            && j'.report.value.cases == j.cases && j'.report.value.tests == passed + failed + skipped
  {}
}
