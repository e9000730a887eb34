/** `MentionContainerParser` (examples/parser.py): a custom container parser
    that keeps only the parsed strings that are mentions. */
module MentionParser {
  import opened Wrappers
  import opened Errors
  import opened Strings

  /** `isinstance(arg, str) and arg.startswith("@")` */
  predicate IsMention(v: Value) {
    v.StrV? && StartsWith(v.s, "@")
  }

  /** The list comprehension: the mentions among `items`, in their order. */
  function Mentions(items: seq<Value>): (r: seq<Value>)
    ensures |r| <= |items|
    ensures forall i :: 0 <= i < |r| ==> IsMention(r[i])
    ensures forall v :: v in r <==> v in items && IsMention(v)
  {
    if items == [] then [] else (if IsMention(items[0]) then [items[0]] else []) + Mentions(items[1..])
  }

  /** `MentionContainerParser.parse`: the non-empty list of mentions, else the
      default, else `TypeError("Got 0 valid mentions!")`. */
  function ParseMentions(items: seq<Value>, default: Option<Value>): (r: Result<Value, Error>)
    ensures Mentions(items) != [] ==> r == Ok(ListV(Mentions(items)))
    ensures Mentions(items) == [] ==> r == (if default.Some? then Ok(default.value) else Err(TypeError(NoMentions)))
  {
    var mentions := Mentions(items);
    if mentions != [] then Ok(ListV(mentions))
    else if default.Some? then Ok(default.value)
    else Err(TypeError(NoMentions))
  }

  /** Filtering distributes over concatenation, so the kept mentions appear in
      the order of the input. */
  lemma {:induction false} MentionsOfConcat(a: seq<Value>, b: seq<Value>)
    ensures Mentions(a + b) == Mentions(a) + Mentions(b)
  {
    if a == [] {
      assert a + b == b;
    } else {
      assert (a + b)[0] == a[0] && (a + b)[1..] == a[1..] + b;
      MentionsOfConcat(a[1..], b);
    }
  }

  /** Every element of the input that is a mention is kept; nothing else is. */
  lemma {:induction false} MentionsKeepsExactlyMentions(items: seq<Value>)
    ensures Mentions(items) == items <==> forall i :: 0 <= i < |items| ==> IsMention(items[i])
  {
    if items != [] {
      MentionsKeepsExactlyMentions(items[1..]);
      if !IsMention(items[0]) {
        assert |Mentions(items)| < |items|;
      }
    }
  }

  /** Filtering twice is filtering once. */
  lemma MentionsIdempotent(items: seq<Value>)
    ensures Mentions(Mentions(items)) == Mentions(items)
  {
    MentionsKeepsExactlyMentions(Mentions(items));
  }

  lemma MentionsOfOne(v: Value)
    ensures Mentions([v]) == if IsMention(v) then [v] else []
  {
    assert [v][1..] == [];
  }

  lemma DocumentedTokens()
    ensures IsMention(StrV("@foo")) && IsMention(StrV("@bar")) && !IsMention(StrV("bat")) && IsMention(StrV("@baz"))
  {
    assert "@foo"[..1] == "@" && "@bar"[..1] == "@" && "@baz"[..1] == "@" && "bat"[0] != '@';
  }

  /** The documented invocation `!mention @foo @bar bat @baz`. */
  lemma DocumentedMentions(items: seq<Value>)
    requires items == [StrV("@foo"), StrV("@bar"), StrV("bat"), StrV("@baz")]
    ensures ParseMentions(items, None) == Ok(ListV([StrV("@foo"), StrV("@bar"), StrV("@baz")]))
  {
    var a, b, c, d := StrV("@foo"), StrV("@bar"), StrV("bat"), StrV("@baz");
    DocumentedTokens();
    assert items == [a, b, c] + [d];
    assert [a, b, c] == [a, b] + [c];
    assert [a, b] == [a] + [b];
    MentionsOfConcat([a, b, c], [d]);
    MentionsOfConcat([a, b], [c]);
    MentionsOfConcat([a], [b]);
    MentionsOfOne(a);
    MentionsOfOne(b);
    MentionsOfOne(c);
    MentionsOfOne(d);
    assert Mentions(items) == [a, b, d];
  }
}
