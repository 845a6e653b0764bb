/**
  The batch converter: it cleans narration files, builds a few-shot dialog
  for each one and pulls the generated "language_queries" JSON text out of
  the model's reply.
 */
module AnnotationConverter {
  import opened Exceptions
  import opened Json
  import opened Narration
  import opened Messages
  import opened Text
  import opened PyRepr

  // ---------------------------------------------------------------------
  // Cleaning
  // ---------------------------------------------------------------------

  /**
    `clean_narrative`: strip the volatile keys from every chunk of the
    document's "narrations" list, in place.
   */
  method CleanNarrative(doc: Document) returns (raised: Option<Exception>)
    modifies doc
    ensures StripNarrations(old(doc.root)).Ok? ==>
              raised == None && doc.root == StripNarrations(old(doc.root)).value
    ensures StripNarrations(old(doc.root)).Raise? ==>
              raised == Some(StripNarrations(old(doc.root)).error)
  {
    var r := CleanChunkList(doc.root);
    if r.Raise? {
      return Some(r.error);
    }
    doc.root := r.value;
    return None;
  }

  /**
    `clean_ex_narrative`: the per-video form, where "status" is skipped when
    present and the first other pass of each video is stripped.
   */
  method CleanExNarrative(doc: Document) returns (raised: Option<Exception>)
    modifies doc
    ensures CleanVideos(old(doc.root), false).Ok? ==>
              raised == None && doc.root == CleanVideos(old(doc.root), false).value
    ensures CleanVideos(old(doc.root), false).Raise? ==>
              raised == Some(CleanVideos(old(doc.root), false).error)
  {
    raised := CleanPerVideo(doc, false);
  }

  // ---------------------------------------------------------------------
  // Dialog assembly
  // ---------------------------------------------------------------------

  const SureReply: string := "Sure, can you provide me narration_1_1.json?"
  const ThanksReply: string :=
    "Thanks for the narration_1_1.json. Can you provide me nlq_val_1_1.json so that I can understand the relationship between input and the desired output?"
  const ReadyReply: string :=
    "Thanks, I get that. Now, please give me the example narration JSON (narration_1_2.json). I will generate a JSON script that includes 10 unique questions with corresponding timestamps in the same format as nlq_val_1_1.json. I will provide you JSON without any additional messages."

  /**
    `generate_dialog_template`: the seven-message few-shot prefix. The prompts
    and the two serialized example files are its parameters.
   */
  function DialogTemplate(systemPrompt: string, firstPrompt: string, exampleNarration: string, exampleQueries: string): (d: seq<Message>)
    ensures |d| == 7 && FewShot(d)
    ensures Roles(d) == [System, User, Assistant, User, Assistant, User, Assistant]
    ensures d[0].content == systemPrompt && d[1].content == firstPrompt
    ensures d[3].content == exampleNarration && d[5].content == exampleQueries
  {
    var d := [
      SystemTurn(systemPrompt),
      UserTurn(firstPrompt),
      AssistantTurn(SureReply),
      UserTurn(exampleNarration),
      AssistantTurn(ThanksReply),
      UserTurn(exampleQueries),
      AssistantTurn(ReadyReply)
    ];
    assert forall i :: 0 <= i < 7 ==> d[i].role == RoleAt(i);
    d
  }

  /**
    `generate_dialog`: a copy of the template with the task narration appended
    as a user turn; the template itself is left as it was.
   */
  method GenerateDialog(template: MessageList, taskNarration: string) returns (dialog: MessageList)
    ensures fresh(dialog)
    ensures dialog.items == template.items + [UserTurn(taskNarration)]
    ensures template.items == old(template.items)
  {
    dialog := template.Copy();
    dialog.Append(UserTurn(taskNarration));
  }

  /**
    The dialog sent for each narration file: eight messages, system first,
    then user and assistant alternating, ending with the task narration as a
    user turn that closes its message.
   */
  lemma TaskDialog(systemPrompt: string, firstPrompt: string, exampleNarration: string, exampleQueries: string, taskNarration: string)
    ensures var d := DialogTemplate(systemPrompt, firstPrompt, exampleNarration, exampleQueries) + [UserTurn(taskNarration)];
      && |d| == 8 && FewShot(d)
      && Roles(d) == [System, User, Assistant, User, Assistant, User, Assistant, User]
      && d[7].content == taskNarration && d[7].stopReason == Some(EndOfMessage)
  {
    var t := DialogTemplate(systemPrompt, firstPrompt, exampleNarration, exampleQueries);
    assert t[6].role == Assistant;
    AppendUserTurn(t, taskNarration);
    assert Roles(t + [UserTurn(taskNarration)]) == Roles(t) + [User];
  }

  // ---------------------------------------------------------------------
  // Response extraction
  // ---------------------------------------------------------------------

  const Marker: string := "language_queries"
  const Prefix: string := "{\"language_queries"
  const EscapedNewline: string := "\\n"
  const Closing: string := "]}"

  /**
    The string handed to `repr`: the reply after the first "language_queries",
    put back behind `{"language_queries`; without the marker, the whole reply.
   */
  function Reprefix(reply: string): (r: string)
    ensures |r| >= |Prefix| && r[..|Prefix|] == Prefix
    ensures Find(reply, Marker) < 0 ==> r[|Prefix|..] == reply
    ensures Find(reply, Marker) >= 0 ==>
              reply == reply[..Find(reply, Marker)] + Marker + r[|Prefix|..]
  {
    var r := Prefix + AfterFirst(reply, Marker);
    assert r[|Prefix|..] == AfterFirst(reply, Marker);
    r
  }

  /**
    The slice from the first `{` to the last `}`, with Python's reading of
    -1 (not found) as an index counted from the end.
   */
  function BraceSlice(s: string): (r: string)
    ensures '}' !in s ==> r == []
    ensures 0 <= Find(s, "{") <= RFind(s, '}') ==> r == s[Find(s, "{")..RFind(s, '}') + 1]
    ensures Find(s, "{") > RFind(s, '}') ==> r == []
    ensures Find(s, "{") < 0 ==> r == if s != [] && s[|s| - 1] == '}' then "}" else []
  {
    var last := RFind(s, '}');
    var first := Find(s, "{");
    Slice(s, first, last + 1)
  }

  /** Append `]}` unless the text already ends with it. */
  function CloseBrackets(s: string): (r: string)
    ensures EndsWith(r, Closing)
    ensures EndsWith(s, Closing) ==> r == s
    ensures !EndsWith(s, Closing) ==> r == s + Closing
  {
    LastTwo(s, Closing);
    if Slice(s, -2, |s|) != Closing then s + Closing else s
  }

  /** `s.replace("\\", "")` */
  function StripBackslashes(s: string): (r: string)
    ensures Backslash !in r
    ensures forall c :: c != Backslash ==> (c in r <==> c in s)
    ensures EndsWith(s, Closing) ==> EndsWith(r, Closing)
  {
    RemoveAllChar(s, Backslash);
    var r := RemoveAll(s, [Backslash]);
    assert EndsWith(s, Closing) ==> EndsWith(r, Closing) by {
      if EndsWith(s, Closing) {
        var t := s[..|s| - 2];
        assert s == t + Closing;
        RemoveCharSuffix(t, Closing, Backslash);
      }
    }
    r
  }

  /**
    The extraction chain applied to the model's reply before `json.loads`:
    re-prefix, `repr`, drop escaped newlines, cut from the first `{` to the
    last `}`, close the brackets, drop backslashes. The result never holds a
    backslash and always ends with `]}`.
   */
  function ExtractQueries(reply: string, printable: char -> bool): (r: string)
    ensures Backslash !in r
    ensures EndsWith(r, Closing)
  {
    var quoted := Repr(Reprefix(reply), printable);
    var joined := RemoveAll(quoted, EscapedNewline);
    var candidate := BraceSlice(joined);
    StripBackslashes(CloseBrackets(candidate))
  }

  /** Every character of the prefix is copied by `repr` between single quotes. */
  lemma PrefixVerbatim(printable: char -> bool)
    ensures forall i :: 0 <= i < |Prefix| ==> Verbatim(Prefix[i], SingleQuote, printable)
    ensures Backslash !in Prefix && '}' !in Prefix && Prefix[0] == '{' && DoubleQuote in Prefix
  {
    assert Prefix[1] == DoubleQuote;
  }

  /** The reply after `repr` and the deletion of escaped newlines (lines 204-205). */
  function Joined(reply: string, printable: char -> bool): string
  {
    RemoveAll(Repr(Reprefix(reply), printable), EscapedNewline)
  }

  /** What becomes of the text after the marker, followed by the closing quote. */
  function JoinedTail(tail: string, printable: char -> bool): string
  {
    RemoveAll(EscapeAll(tail, SingleQuote, printable) + [SingleQuote], EscapedNewline)
  }

  /** The last three steps of the chain (lines 207-213). */
  function Finish(joined: string): string
  {
    StripBackslashes(CloseBrackets(BraceSlice(joined)))
  }

  /**
    `repr` quotes the re-prefixed reply with single quotes and keeps a head of
    verbatim characters as it is; deleting escaped newlines keeps it too.
   */
  lemma {:induction false} JoinedHead(h: string, tail: string, printable: char -> bool)
    requires forall i :: 0 <= i < |h| ==> Verbatim(h[i], SingleQuote, printable)
    requires DoubleQuote in h
    ensures RemoveAll(Repr(h + tail, printable), EscapedNewline) == [SingleQuote] + h + JoinedTail(tail, printable)
  {
    var s0 := h + tail;
    assert DoubleQuote in s0;
    assert QuoteFor(s0) == SingleQuote;
    EscapeAppend(h, tail, SingleQuote, printable);
    EscapeVerbatim(h, SingleQuote, printable);
    var e := EscapeAll(tail, SingleQuote, printable);
    assert Repr(s0, printable) == [SingleQuote] + (h + e) + [SingleQuote];
    Regroup([SingleQuote], h, e, [SingleQuote]);
    assert Backslash !in [SingleQuote] + h;
    RemoveAllPrefix([SingleQuote] + h, e + [SingleQuote], EscapedNewline);
  }

  lemma JoinedShape(reply: string, printable: char -> bool)
    ensures Joined(reply, printable) == [SingleQuote] + Prefix + JoinedTail(AfterFirst(reply, Marker), printable)
  {
    PrefixVerbatim(printable);
    JoinedHead(Prefix, AfterFirst(reply, Marker), printable);
  }

  /** A `}` survives `repr` and the newline deletion exactly when the tail had one. */
  lemma JoinedTailBrace(tail: string, printable: char -> bool)
    ensures '}' in JoinedTail(tail, printable) <==> '}' in tail
  {
    var e := EscapeAll(tail, SingleQuote, printable);
    EscapeKeepsCloseBrace(tail, SingleQuote, printable);
    assert multiset(JoinedTail(tail, printable))['}'] == multiset(e + [SingleQuote])['}'];
    assert '}' in e + [SingleQuote] <==> '}' in e;
  }

  /** In text that opens with a quote and then a `{`, the first `{` is at index 1. */
  lemma FirstBraceAfterQuote(h: string, rest: string)
    requires h != [] && h[0] == '{'
    ensures Find([SingleQuote] + h + rest, "{") == 1
  {
    var s := [SingleQuote] + h + rest;
    FindChar(s, '{');
    assert s[1] == '{';
    assert s[..1] == [SingleQuote];
  }

  /** The last three steps on a quoted head h with no `}` after it leave just `]}`. */
  lemma FinishNoBrace(h: string, rest: string)
    requires '}' !in h && '}' !in rest
    ensures Finish([SingleQuote] + h + rest) == Closing
  {
    var joined := [SingleQuote] + h + rest;
    assert '}' !in joined;
    assert BraceSlice(joined) == [];
    RemoveNothing(Closing, Backslash);
  }

  /**
    The last three steps on a quoted head h starting with `{`, followed by
    text holding a `}`: the head comes out first, followed by more text.
   */
  lemma {:induction false} FinishWithBrace(h: string, rest: string)
    requires h != [] && h[0] == '{' && '}' !in h && Backslash !in h
    requires '}' in rest
    ensures |Finish([SingleQuote] + h + rest)| > |h| && Finish([SingleQuote] + h + rest)[..|h|] == h
  {
    var hq := [SingleQuote] + h;
    var joined := hq + rest;
    FirstBraceAfterQuote(h, rest);
    var k :| 0 <= k < |rest| && rest[k] == '}';
    assert joined[|hq| + k] == '}';
    var last := RFind(joined, '}');
    assert last >= |hq| + k;
    var candidate := BraceSlice(joined);
    assert candidate == joined[1..last + 1];
    assert candidate[..|h|] == h;
    var closed := CloseBrackets(candidate);
    assert closed[..|h|] == h;
    var tail := closed[|h|..];
    assert closed == h + tail;
    RemoveAllPrefix(h, tail, [Backslash]);
    assert closed[|closed| - 1] == '}';
    assert tail[|tail| - 1] == '}';
    RemoveAllChar(tail, Backslash);
  }

  /**
    The shape of every extraction: when the reply holds no `}` after the
    marker the result is just `]}`; otherwise it starts with
    `{"language_queries`.
   */
  lemma ExtractQueriesShape(reply: string, printable: char -> bool)
    ensures var r := ExtractQueries(reply, printable);
      && (r == Closing <==> '}' !in AfterFirst(reply, Marker))
      && ('}' in AfterFirst(reply, Marker) ==> |r| > |Prefix| && r[..|Prefix|] == Prefix)
  {
    var tail := AfterFirst(reply, Marker);
    assert ExtractQueries(reply, printable) == Finish(Joined(reply, printable));
    JoinedShape(reply, printable);
    JoinedTailBrace(tail, printable);
    PrefixVerbatim(printable);
    if '}' in tail {
      FinishWithBrace(Prefix, JoinedTail(tail, printable));
    } else {
      FinishNoBrace(Prefix, JoinedTail(tail, printable));
    }
  }

  /**
    The last three steps on a quoted head h followed by text d that already
    ends in `]}` and holds no backslash: they return h + d.
   */
  lemma {:induction false} FinishClean(h: string, d: string)
    requires h != [] && h[0] == '{' && '}' !in h && Backslash !in h
    requires EndsWith(d, Closing) && Backslash !in d
    ensures Finish([SingleQuote] + h + d + [SingleQuote]) == h + d
  {
    var joined := [SingleQuote] + h + d + [SingleQuote];
    FirstBraceAfterQuote(h, d + [SingleQuote]);
    assert [SingleQuote] + h + (d + [SingleQuote]) == joined;
    var end := |h| + |d|;
    assert joined[end] == '}';
    assert joined[end + 1] == SingleQuote;
    var last := RFind(joined, '}');
    assert last == end;
    Regroup([SingleQuote], h, d, [SingleQuote]);
    assert joined == [SingleQuote] + (h + d) + [SingleQuote];
    assert joined[1..end + 1] == h + d;
    assert BraceSlice(joined) == h + d;
    assert EndsWith(h + d, Closing);
    assert CloseBrackets(h + d) == h + d;
    RemoveNothing(h + d, Backslash);
  }

  /**
    A reply whose text after the marker needs no escaping except for line
    breaks, and which ends in `]}` once they are gone, is extracted as that
    text behind `{"language_queries`, with the line breaks removed and nothing
    else changed.
   */
  lemma CleanReplyExtraction(reply: string, printable: char -> bool)
    requires forall i :: 0 <= i < |AfterFirst(reply, Marker)| ==>
               AfterFirst(reply, Marker)[i] == '\n' || Verbatim(AfterFirst(reply, Marker)[i], SingleQuote, printable)
    requires EndsWith(RemoveAll(AfterFirst(reply, Marker), "\n"), Closing)
    ensures ExtractQueries(reply, printable) == Prefix + RemoveAll(AfterFirst(reply, Marker), "\n")
  {
    var tail := AfterFirst(reply, Marker);
    assert ExtractQueries(reply, printable) == Finish(Joined(reply, printable));
    assert Reprefix(reply) == Prefix + tail;
    PrefixVerbatim(printable);
    CleanHeadAndTail(Prefix, tail, printable);
  }

  /** The clean-reply extraction for any verbatim head starting with `{`. */
  lemma {:induction false} CleanHeadAndTail(h: string, tail: string, printable: char -> bool)
    requires forall i :: 0 <= i < |h| ==> Verbatim(h[i], SingleQuote, printable)
    requires DoubleQuote in h && h != [] && h[0] == '{' && '}' !in h && Backslash !in h
    requires forall i :: 0 <= i < |tail| ==> tail[i] == '\n' || Verbatim(tail[i], SingleQuote, printable)
    requires EndsWith(RemoveAll(tail, "\n"), Closing)
    ensures Finish(RemoveAll(Repr(h + tail, printable), EscapedNewline)) == h + RemoveAll(tail, "\n")
  {
    JoinedClean(h, tail, printable);
    NoBackslashLeft(tail, printable);
    FinishClean(h, RemoveAll(tail, "\n"));
  }

  /** After lines 204-205 a clean tail is the quote, the head, the tail without line breaks and the quote. */
  lemma {:induction false} JoinedClean(h: string, tail: string, printable: char -> bool)
    requires forall i :: 0 <= i < |h| ==> Verbatim(h[i], SingleQuote, printable)
    requires DoubleQuote in h
    requires forall i :: 0 <= i < |tail| ==> tail[i] == '\n' || Verbatim(tail[i], SingleQuote, printable)
    ensures RemoveAll(Repr(h + tail, printable), EscapedNewline)
            == [SingleQuote] + h + RemoveAll(tail, "\n") + [SingleQuote]
  {
    var d := RemoveAll(tail, "\n");
    JoinedHead(h, tail, printable);
    EscapeThenJoin(tail, printable);
    Regroup([SingleQuote], h, d, [SingleQuote]);
  }

  /** Verbatim characters and line breaks hold no backslash, so none is left once the line breaks go. */
  lemma {:induction false} NoBackslashLeft(tail: string, printable: char -> bool)
    requires forall i :: 0 <= i < |tail| ==> tail[i] == '\n' || Verbatim(tail[i], SingleQuote, printable)
    ensures Backslash !in RemoveAll(tail, "\n")
  {
    assert multiset(RemoveAll(tail, "\n"))[Backslash] == multiset(tail)[Backslash];
    assert Backslash !in tail;
  }

  /**
    Escaping a tail of verbatim characters and line breaks and then deleting
    the escaped line breaks gives the tail without its line breaks.
   */
  lemma {:induction false} EscapeThenJoin(tail: string, printable: char -> bool)
    requires forall i :: 0 <= i < |tail| ==> tail[i] == '\n' || Verbatim(tail[i], SingleQuote, printable)
    ensures JoinedTail(tail, printable) == RemoveAll(tail, "\n") + [SingleQuote]
  {
    var x := EscapeAll(tail, SingleQuote, printable);
    if tail == [] {
      assert x + [SingleQuote] == [SingleQuote];
    } else {
      var c := tail[0];
      var t := tail[1..];
      EscapeThenJoin(t, printable);
      var y := EscapeAll(t, SingleQuote, printable) + [SingleQuote];
      assert x + [SingleQuote] == EscapeChar(c, SingleQuote, printable) + y;
      if c == '\n' {
        assert (EscapedNewline + y)[..2] == EscapedNewline;
        assert (EscapedNewline + y)[2..] == y;
        assert tail[..1] == "\n";
      } else {
        assert EscapeChar(c, SingleQuote, printable) == [c];
        RemoveAllCons(c, y, EscapedNewline);
        assert tail[..1] != "\n";
      }
    }
  }

  // ---------------------------------------------------------------------
  // Input selection and the conversion loop
  // ---------------------------------------------------------------------

  /** The directory entries the converter reads: those whose name ends with ".json", in listing order. */
  function JsonInputs(names: seq<string>): (r: seq<string>)
    ensures forall x :: x in r <==> x in names && EndsWith(x, ".json")
    ensures |r| <= |names|
  {
    if names == [] then []
    else if EndsWith(names[0], ".json") then [names[0]] + JsonInputs(names[1..])
    else JsonInputs(names[1..])
  }

  /** Filtering a listing part by part is filtering it whole: the order of the listing is kept. */
  lemma {:induction false} JsonInputsAppend(a: seq<string>, b: seq<string>)
    ensures JsonInputs(a + b) == JsonInputs(a) + JsonInputs(b)
  {
    if a == [] {
      assert a + b == b;
    } else {
      assert (a + b)[0] == a[0] && (a + b)[1..] == a[1..] + b;
      JsonInputsAppend(a[1..], b);
    }
  }

  /**
    What one input file becomes: its narration is cleaned and serialized, the
    template plus that narration is sent to the model, and the query text is
    extracted from the reply.
   */
  function ConvertOne(template: seq<Message>, dumps: Value -> string, generate: seq<Message> -> string,
                      printable: char -> bool, narration: Value): (r: Result<string>)
    ensures r.Ok? <==> StripNarrations(narration).Ok?
    ensures r.Raise? ==> r.error == StripNarrations(narration).error
    ensures r.Ok? ==> Backslash !in r.value && EndsWith(r.value, Closing)
  {
    var cleaned :- StripNarrations(narration);
    Ok(ExtractQueries(generate(template + [UserTurn(dumps(cleaned))]), printable))
  }

  /** The body of the loop over the input files, as the function that loop maps. */
  function FileConverter(template: seq<Message>, dumps: Value -> string, generate: seq<Message> -> string,
                         printable: char -> bool): Value -> Result<string>
  {
    (narration: Value) => ConvertOne(template, dumps, generate, printable, narration)
  }

  /**
    The loop over the input files. Parsing, serializing and generation are
    parameters. A cleaning failure ends the loop with its exception. The
    template is never changed, so every dialog is the template plus its own
    narration, whatever files came before it.
   */
  method ConvertAll(template: MessageList, narrations: seq<Value>, dumps: Value -> string,
                    generate: seq<Message> -> string, printable: char -> bool)
    returns (outputs: seq<string>, raised: Option<Exception>)
    ensures template.items == old(template.items)
    ensures raised == None ==>
              MapAll(narrations, FileConverter(template.items, dumps, generate, printable)) == Ok(outputs)
    ensures raised.Some? ==>
              MapAll(narrations, FileConverter(template.items, dumps, generate, printable)) == Raise(raised.value)
    ensures raised.Some? ==>
              exists k :: 0 <= k < |narrations|
                && MapAll(narrations[..k], FileConverter(template.items, dumps, generate, printable)) == Ok(outputs)
                && FileConverter(template.items, dumps, generate, printable)(narrations[k]) == Raise(raised.value)
  {
    var items := template.items;
    ghost var f := FileConverter(items, dumps, generate, printable);
    outputs := [];
    for i := 0 to |narrations|
      invariant template.items == items
      invariant MapAll(narrations[..i], f) == Ok(outputs)
    {
      MapAllStep(narrations, i, f);
      var doc := new Document(narrations[i]);
      var failure := CleanNarrative(doc);
      if failure.Some? {
        assert f(narrations[i]) == Raise(failure.value);
        return outputs, failure;
      }
      var dialog := GenerateDialog(template, dumps(doc.root));
      var reply := generate(dialog.items);
      outputs := outputs + [ExtractQueries(reply, printable)];
    }
    assert narrations[..|narrations|] == narrations;
    raised := None;
  }
}
