/** Worked inputs for the scanner, each derived step by step from the
    properties in `Tokenizer`. */
module TokenizerExamples {
  import opened Wrappers
  import opened Errors
  import opened Tokenizer

  /** A plain word followed by a space becomes one positional token. */
  lemma WordThenSpace(w: string, rest: string, args: seq<string>)
    requires Plain(w) && ' ' !in w && w != ""
    ensures Run(w + ([' '] + rest), Scan("", "", args, [], map[])) == Run(rest, Scan("", "", args + [w], [], map[]))
  {
    var st := Scan("", "", args, [], map[]);
    WordStep(w, [' '] + rest, st);
    assert st.(value := st.value + w) == st.(value := w);
    SpaceStep(rest, st.(value := w));
    assert Finalise(st.(value := w)) == Scan("", "", args + [w], [], map[]);
  }

  lemma QuotedPhraseHead(s: string, q: string)
    requires s == "say \"hello world\"" && q == ['"'] + "hello world" + ['"']
    ensures Tokenize(s) == Run(q, Scan("", "", ["say"], [], map[]))
  {
    var w := "say";
    assert s == w + ([' '] + q);
    LowercaseIsPlain(w);
    WordThenSpace(w, q, []);
    assert [] + [w] == ["say"];
  }

  lemma QuotedPhraseTail(q: string)
    requires q == ['"'] + "hello world" + ['"']
    ensures Run(q, Scan("", "", ["say"], [], map[])) == Ok(Tokens(["say", "hello world"], [], map[]))
  {
    var st := Scan("", "", ["say"], [], map[]);
    AsciiQuotes('"');
    assert q == ['"'] + "hello world" + ['"'] + "";
    QuotedSpanIsOneToken('"', "hello world", "", st);
    var st' := st.(value := "hello world");
    assert st.(value := st.value + "hello world") == st';
    assert Finalise(st') == Scan("", "", ["say", "hello world"], [], map[]);
  }

  /** A quoted phrase is one token, spaces included. */
  lemma QuotedPhraseExample(s: string)
    requires s == "say \"hello world\""
    ensures Tokenize(s) == Ok(Tokens(["say", "hello world"], [], map[]))
  {
    var q := ['"'] + "hello world" + ['"'];
    QuotedPhraseHead(s, q);
    QuotedPhraseTail(q);
  }

  lemma RepeatedFlagHead(s: string)
    requires s == "cmd --tag x --tag y"
    ensures Tokenize(s) == Run("x --tag y", Scan("tag", "", ["cmd"], [], map[]))
  {
    LowercaseIsPlain("cmd");
    LowercaseIsPlain("tag");
    var t1 := "x --tag y";
    var tail := ['-', '-'] + "tag" + [' '] + t1;
    assert s == "cmd" + ([' '] + tail);
    WordStep("cmd", [' '] + tail, Start);
    assert Start.(value := Start.value + "cmd") == Start.(value := "cmd");
    SpaceStep(tail, Start.(value := "cmd"));
    var st1 := Scan("", "", ["cmd"], [], map[]);
    assert Finalise(Start.(value := "cmd")) == st1;
    LongFlagReadsToSpace("tag", t1, st1);
    assert Opened(st1) == st1;
  }

  lemma RepeatedFlagMiddle()
    ensures Run("x --tag y", Scan("tag", "", ["cmd"], [], map[]))
      == Run("y", Scan("tag", "", ["cmd"], ["tag"], map["tag" := ["x"]]))
  {
    LowercaseIsPlain("x");
    LowercaseIsPlain("tag");
    var t2 := ['-', '-'] + "tag" + [' '] + "y";
    assert "x --tag y" == "x" + ([' '] + t2);
    var st2 := Scan("tag", "", ["cmd"], [], map[]);
    WordStep("x", [' '] + t2, st2);
    var st3 := st2.(value := "x");
    assert st2.(value := st2.value + "x") == st3;
    SpaceStep(t2, st3);
    var st4 := Scan("", "", ["cmd"], ["tag"], map["tag" := ["x"]]);
    assert "tag" !in st3.kwargs;
    var fin := Finalise(st3);
    assert fin.keys == ["tag"] && fin.kwargs["tag"] == ["x"] && fin.kwargs.Keys == {"tag"};
    assert fin == st4;
    LongFlagReadsToSpace("tag", "y", st4);
    assert Opened(st4) == st4;
  }

  lemma RepeatedFlagTail()
    ensures Run("y", Scan("tag", "", ["cmd"], ["tag"], map["tag" := ["x"]]))
      == Ok(Tokens(["cmd"], ["tag"], map["tag" := ["x", "y"]]))
  {
    LowercaseIsPlain("y");
    var st := Scan("tag", "", ["cmd"], ["tag"], map["tag" := ["x"]]);
    assert "y" == "y" + "";
    WordStep("y", "", st);
    var st' := st.(value := "y");
    assert st.(value := st.value + "y") == st';
    assert "tag" in st'.kwargs && st'.kwargs["tag"] == ["x"];
    var fin := Finalise(st');
    assert fin.kwargs["tag"] == ["x", "y"] && fin.kwargs.Keys == {"tag"};
    assert fin == Scan("", "", ["cmd"], ["tag"], map["tag" := ["x", "y"]]);
  }

  /** Repeating a flag collects its values in order under one key. */
  lemma RepeatedFlagExample(s: string)
    requires s == "cmd --tag x --tag y"
    ensures Tokenize(s) == Ok(Tokens(["cmd"], ["tag"], map["tag" := ["x", "y"]]))
  {
    RepeatedFlagHead(s);
    RepeatedFlagMiddle();
    RepeatedFlagTail();
  }

  /** An escaped space does not split a word. */
  lemma EscapedSpaceExample(s: string)
    requires s == "a\\ b"
    ensures Tokenize(s) == Ok(Tokens(["a b"], [], map[]))
  {
    LowercaseIsPlain("a");
    LowercaseIsPlain("b");
    assert s == "a" + (['\\', ' '] + ("b" + ""));
    WordStep("a", ['\\', ' '] + ("b" + ""), Start);
    assert Start.(value := Start.value + "a") == Start.(value := "a");
    EscapeIsLiteral(' ', "b" + "", Start.(value := "a"));
    assert Start.(value := "a").(value := "a" + [' ']) == Start.(value := "a ");
    WordStep("b", "", Start.(value := "a "));
    assert Start.(value := "a ").(value := "a " + "b") == Start.(value := "a b");
    assert Finalise(Start.(value := "a b")) == Scan("", "", ["a b"], [], map[]);
  }

  lemma UnterminatedQuoteExample(s: string)
    requires s == "\"open"
    ensures Tokenize(s) == Err(StopIteration)
  {
    assert s == ['"'] + "open";
    AsciiQuotes('"');
    LowercaseIsPlain("open");
    UnterminatedQuoteFails('"', "open", Start);
  }

  /** A flag with no value is finalised with the empty string. */
  lemma BareShortFlagExample(s: string)
    requires s == "-f"
    ensures Tokenize(s) == Ok(Tokens([], ["f"], map["f" := [""]]))
  {
    assert s == ['-', 'f'] + "";
    ShortFlagTakesOneChar('f', "", Start);
    var st := Start.(name := "f");
    assert Opened(Start).(name := ['f']) == st;
    assert "f" !in st.kwargs;
    var r := Finalise(st);
    assert r.keys == ["f"] && r.kwargs["f"] == [""] && r.kwargs.Keys == {"f"};
    assert r == Scan("", "", [], ["f"], map["f" := [""]]);
  }
}
