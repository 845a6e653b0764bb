/**
  The single-file converter script: its narration cleaner insists on a
  "status" key in every video, its dialog is written out inline with the task
  narration as the eighth message, and the reply is cut at its first `{`.
 */
module ScriptConverter {
  import opened Exceptions
  import opened Json
  import opened Narration
  import opened Messages
  import opened Text
  import AnnotationConverter

  /**
    `clean_narrative`: for each video, remove "status" from the key list
    unconditionally, then strip the first remaining pass, in place.
   */
  method CleanNarrative(doc: Document) returns (raised: Option<Exception>)
    modifies doc
    ensures CleanVideos(old(doc.root), true).Ok? ==>
              raised == None && doc.root == CleanVideos(old(doc.root), true).value
    ensures CleanVideos(old(doc.root), true).Raise? ==>
              raised == Some(CleanVideos(old(doc.root), true).error)
  {
    raised := CleanPerVideo(doc, true);
  }

  /**
    A video without "status" makes the cleaner raise `ValueError`, the error
    `list.remove` raises for a missing element.
   */
  lemma MissingStatusRaises(root: Value, i: nat)
    requires root.Obj? && i < |root.entries|
    requires root.entries[i].1.Obj? && StatusKey !in Keys(root.entries[i].1.entries)
    requires forall j :: 0 <= j < i ==> CleanVideo(root.entries[j].1, true).Ok?
    ensures CleanVideos(root, true) == Raise(ValueError)
  {
    var f := EntryCleaner(true);
    forall j | 0 <= j < i
      ensures f(root.entries[j]).Ok?
    {
    }
    assert f(root.entries[i]) == Raise(ValueError) by {
      StatusRequirement(root.entries[i].1);
    }
    MapAllOk(root.entries[..i], f);
    MapAllStep(root.entries, i, f);
  }

  /** The dialog literal: the seven-message few-shot prefix followed by the task narration. */
  function InlineDialog(systemPrompt: string, firstPrompt: string, exampleNarration: string,
                        exampleQueries: string, taskNarration: string): (d: seq<Message>)
    ensures |d| == 8 && FewShot(d)
    ensures Roles(d) == [System, User, Assistant, User, Assistant, User, Assistant, User]
    ensures d[7] == UserTurn(taskNarration)
  {
    var d := [
      SystemTurn(systemPrompt),
      UserTurn(firstPrompt),
      AssistantTurn(AnnotationConverter.SureReply),
      UserTurn(exampleNarration),
      AssistantTurn(AnnotationConverter.ThanksReply),
      UserTurn(exampleQueries),
      AssistantTurn(AnnotationConverter.ReadyReply),
      UserTurn(taskNarration)
    ];
    assert forall i :: 0 <= i < 8 ==> d[i].role == RoleAt(i);
    d
  }

  /**
    The script's dialog is exactly the one the batch converter builds from its
    template for the same prompts and narrations.
   */
  lemma InlineDialogMatchesTemplate(systemPrompt: string, firstPrompt: string, exampleNarration: string,
                                    exampleQueries: string, taskNarration: string)
    ensures InlineDialog(systemPrompt, firstPrompt, exampleNarration, exampleQueries, taskNarration)
            == AnnotationConverter.DialogTemplate(systemPrompt, firstPrompt, exampleNarration, exampleQueries)
               + [UserTurn(taskNarration)]
  {
  }

  /**
    `"{" + content.split("{", 1)[-1]`: the reply from its first `{` on, or
    the whole reply behind a `{` when it has none.
   */
  function ExtractReply(reply: string): (r: string)
    ensures |r| >= 1 && r[0] == '{'
    ensures Find(reply, "{") >= 0 ==> r == reply[Find(reply, "{")..] && '{' !in reply[..Find(reply, "{")]
    ensures '{' !in reply ==> r == "{" + reply
  {
    FindChar(reply, '{');
    var r := "{" + AfterFirst(reply, "{");
    assert Find(reply, "{") >= 0 ==> r == reply[Find(reply, "{")..] by {
      if Find(reply, "{") >= 0 {
        var i := Find(reply, "{");
        assert reply == reply[..i] + "{" + AfterFirst(reply, "{");
        assert reply[i..] == "{" + AfterFirst(reply, "{");
      }
    }
    r
  }

  /** Cutting at the first `{` is idempotent: the result already starts with its first `{`. */
  lemma ExtractReplyIdempotent(reply: string)
    ensures ExtractReply(ExtractReply(reply)) == ExtractReply(reply)
  {
    var r := ExtractReply(reply);
    FindChar(r, '{');
    assert r[0] == '{' && r[..1] == "{";
    assert Find(r, "{") == 0;
    assert r[0..] == r;
  }
}
