/**
  Narration cleaning: removing the three volatile keys from every chunk of a
  narration list before the list is serialised into a prompt.

  Two document shapes occur. The flat one holds the chunk list directly under
  "narrations". The per-video one maps each video id to a dict of annotation
  passes (and, optionally, a "status" entry); only the first pass of each video
  is cleaned. The specification functions say what each cleaner computes,
  including which exception it raises; the methods perform the cleaning in
  place on a `Document`, the way the Python functions mutate their argument.
 */
module Narration {
  import opened Exceptions
  import opened Json

  const TimestampFrame: string := "timestamp_frame"
  const UnmappedTimestampSec: string := "_unmapped_timestamp_sec"
  const AnnotationUid: string := "annotation_uid"
  const VolatileKeys: set<string> := {TimestampFrame, UnmappedTimestampSec, AnnotationUid}
  const NarrationsKey: string := "narrations"
  const StatusKey: string := "status"

  /** One entry of the per-video form: a video id and its dict of passes. */
  type Video = (string, Value)

  /** A chunk that the three `del` statements accept. */
  predicate HasVolatileKeys(chunk: Value)
  {
    && chunk.Obj?
    && Get(chunk.entries, TimestampFrame).Some?
    && Get(chunk.entries, UnmappedTimestampSec).Some?
    && Get(chunk.entries, AnnotationUid).Some?
  }

  /** The first `del` of one chunk that fails, as the exception it raises. */
  function MissingKeyError(chunk: Value): Exception
  {
    if !chunk.Obj? then TypeError
    else if Get(chunk.entries, TimestampFrame).None? then KeyError(TimestampFrame)
    else if Get(chunk.entries, UnmappedTimestampSec).None? then KeyError(UnmappedTimestampSec)
    else KeyError(AnnotationUid)
  }

  /** The three `del chunk[...]` statements of one iteration, in source order. */
  function StripChunk(chunk: Value): (r: Result<Value>)
    ensures r.Ok? <==> HasVolatileKeys(chunk)
    ensures r.Raise? ==> r.error == MissingKeyError(chunk)
    ensures r.Ok? ==> r.value == Obj(Without(chunk.entries, VolatileKeys))
  {
    if !chunk.Obj? then Raise(TypeError)
    else
      var e := chunk.entries;
      GetWithout(e, {TimestampFrame}, UnmappedTimestampSec);
      GetWithout(e, {TimestampFrame}, AnnotationUid);
      GetWithout(Without(e, {TimestampFrame}), {UnmappedTimestampSec}, AnnotationUid);
      WithoutWithout(e, {TimestampFrame}, {UnmappedTimestampSec});
      WithoutWithout(e, {TimestampFrame, UnmappedTimestampSec}, {AnnotationUid});
      assert {TimestampFrame} + {UnmappedTimestampSec} == {TimestampFrame, UnmappedTimestampSec};
      assert {TimestampFrame, UnmappedTimestampSec} + {AnnotationUid} == VolatileKeys;
      var c1 :- Del(chunk, TimestampFrame);
      var c2 :- Del(c1, UnmappedTimestampSec);
      Del(c2, AnnotationUid)
  }

  /**
    The body of the flat `clean_narrative`: strip every chunk visited by
    `for chunk in v['narrations']`. Only a list has elements that can be
    stripped; an empty dict or string is iterated without effect.
   */
  function StripNarrations(v: Value): (r: Result<Value>)
    ensures r.Ok? ==> v.Obj? && r.value.Obj? && Keys(r.value.entries) == Keys(v.entries)
  {
    var narrations :- Subscript(v, NarrationsKey);
    var chunks :- Iter(narrations);
    var stripped :- MapAll(chunks, StripChunk);
    if narrations.Arr? then Ok(Obj(Update(v.entries, NarrationsKey, Arr(stripped)))) else Ok(v)
  }

  /**
    For a narration list: cleaning succeeds exactly when every chunk carries
    the three keys; afterwards no chunk has any of them, each chunk keeps its
    other entries in order, the chunks keep their count and order, and every
    top-level key other than "narrations" keeps its value.
   */
  lemma StripNarrationsOfList(v: Value, chunks: seq<Value>)
    requires v.Obj? && Get(v.entries, NarrationsKey) == Some(Arr(chunks))
    ensures StripNarrations(v).Ok? <==> forall i :: 0 <= i < |chunks| ==> HasVolatileKeys(chunks[i])
    ensures StripNarrations(v).Ok? ==>
      exists stripped: seq<Value> ::
        && Get(StripNarrations(v).value.entries, NarrationsKey) == Some(Arr(stripped))
        && |stripped| == |chunks|
        && (forall i :: 0 <= i < |chunks| ==> stripped[i] == Obj(Without(chunks[i].entries, VolatileKeys)))
    ensures StripNarrations(v).Ok? ==>
      forall k :: k != NarrationsKey ==> Get(StripNarrations(v).value.entries, k) == Get(v.entries, k)
  {
    MapAllOk(chunks, StripChunk);
    if StripNarrations(v).Ok? {
      var stripped := MapAll(chunks, StripChunk).value;
      assert NarrationsKey in Keys(v.entries);
      GetUpdate(v.entries, NarrationsKey, Arr(stripped), NarrationsKey);
      forall k | k != NarrationsKey
        ensures Get(StripNarrations(v).value.entries, k) == Get(v.entries, k)
      {
        GetUpdate(v.entries, NarrationsKey, Arr(stripped), k);
      }
    }
  }

  /** A failing clean raises the KeyError (or TypeError) of the first chunk that is not strippable. */
  lemma StripNarrationsFirstFailure(v: Value, chunks: seq<Value>)
    requires v.Obj? && Get(v.entries, NarrationsKey) == Some(Arr(chunks))
    requires StripNarrations(v).Raise?
    ensures exists i :: 0 <= i < |chunks| && !HasVolatileKeys(chunks[i]) &&
                        StripNarrations(v).error == MissingKeyError(chunks[i]) &&
                        forall j :: 0 <= j < i ==> HasVolatileKeys(chunks[j])
  {
    MapAllFirstRaise(chunks, StripChunk);
  }

  /**
    The document-shape failures: no dict, no "narrations" key, or a
    "narrations" value that is not iterable or yields strings to `del`.
   */
  lemma StripNarrationsShapeErrors(v: Value)
    ensures !v.Obj? ==> StripNarrations(v) == Raise(TypeError)
    ensures v.Obj? && NarrationsKey !in Keys(v.entries) ==> StripNarrations(v) == Raise(KeyError(NarrationsKey))
    ensures v.Obj? && Get(v.entries, NarrationsKey).Some? ==>
      var n := Get(v.entries, NarrationsKey).value;
      && (n.Null? || n.Bool? || n.Num? ==> StripNarrations(v) == Raise(TypeError))
      && (n.Str? ==> StripNarrations(v) == if n.s == [] then Ok(v) else Raise(TypeError))
      && (n.Obj? ==> StripNarrations(v) == if n.entries == [] then Ok(v) else Raise(TypeError))
  {
    if v.Obj? && Get(v.entries, NarrationsKey).Some? {
      var n := Get(v.entries, NarrationsKey).value;
      if n.Str? || n.Obj? {
        var items := Iter(n).value;
        if items != [] {
          assert items[0].Str? && StripChunk(items[0]) == Raise(TypeError);
        }
      }
    }
  }

  /**
    Cleaning is not idempotent: once a non-empty list has been cleaned, a
    second clean raises KeyError on the first chunk.
   */
  lemma StripNarrationsTwiceRaises(v: Value, chunks: seq<Value>)
    requires v.Obj? && Get(v.entries, NarrationsKey) == Some(Arr(chunks)) && chunks != []
    requires StripNarrations(v).Ok?
    ensures StripNarrations(StripNarrations(v).value) == Raise(KeyError(TimestampFrame))
  {
    StripNarrationsOfList(v, chunks);
    var w := StripNarrations(v).value;
    var stripped: seq<Value> :| Get(w.entries, NarrationsKey) == Some(Arr(stripped)) && |stripped| == |chunks| &&
      forall i :: 0 <= i < |chunks| ==> stripped[i] == Obj(Without(chunks[i].entries, VolatileKeys));
    GetWithout(chunks[0].entries, VolatileKeys, TimestampFrame);
    assert !HasVolatileKeys(stripped[0]);
    StripNarrationsFirstFailure(w, stripped);
  }

  /** `list.index(x)` for an x that is present: the position of its first occurrence. */
  function IndexOf(xs: seq<string>, x: string): (i: nat)
    requires x in xs
    ensures i < |xs| && xs[i] == x && x !in xs[..i]
  {
    if xs[0] == x then 0
    else
      var j := IndexOf(xs[1..], x);
      assert xs[..j + 1] == [xs[0]] + xs[1..][..j];
      j + 1
  }

  /** `list.remove(x)` for an x that is present: drops its first occurrence. */
  function RemoveFirst(xs: seq<string>, x: string): (r: seq<string>)
    requires x in xs
    ensures |r| == |xs| - 1
    ensures exists i :: 0 <= i < |xs| && xs[i] == x && x !in xs[..i] && r == xs[..i] + xs[i + 1..]
  {
    var i := IndexOf(xs, x);
    xs[..i] + xs[i + 1..]
  }

  /**
    `keys = list(passes.keys())`, the removal of "status" and `keys[0]`. When
    `statusRequired`, "status" is removed unconditionally (`keys.remove`
    raises ValueError if it is absent); otherwise only if present.
   */
  function FirstPassKey(passes: Value, statusRequired: bool): (r: Result<string>)
    ensures r.Ok? ==> passes.Obj? && r.value in Keys(passes.entries)
  {
    if !passes.Obj? then Raise(AttributeError)
    else
      var keys := Keys(passes.entries);
      if StatusKey in keys then
        var rest := RemoveFirst(keys, StatusKey);
        if rest == [] then Raise(IndexError) else Ok(rest[0])
      else if statusRequired then Raise(ValueError)
      else if keys == [] then Raise(IndexError)
      else Ok(keys[0])
  }

  /**
    In a dict (distinct keys), the chosen pass is the first key other than
    "status"; the choice fails exactly when the value is no dict, when
    "status" is required and absent, or when no other key exists.
   */
  lemma FirstPassKeySpec(passes: Value, statusRequired: bool)
    requires passes.Obj? ==> DistinctKeys(passes.entries)
    ensures FirstPassKey(passes, statusRequired).Ok? <==>
      && passes.Obj?
      && (statusRequired ==> StatusKey in Keys(passes.entries))
      && exists k :: k in Keys(passes.entries) && k != StatusKey
    ensures FirstPassKey(passes, statusRequired).Raise? ==>
      FirstPassKey(passes, statusRequired).error ==
        if !passes.Obj? then AttributeError
        else if statusRequired && StatusKey !in Keys(passes.entries) then ValueError
        else IndexError
    ensures FirstPassKey(passes, statusRequired).Ok? ==>
      var k := FirstPassKey(passes, statusRequired).value;
      k != StatusKey &&
      exists i :: 0 <= i < |passes.entries| && passes.entries[i].0 == k &&
                  forall j :: 0 <= j < i ==> passes.entries[j].0 == StatusKey
  {
    if passes.Obj? {
      var keys := Keys(passes.entries);
      if StatusKey in keys {
        var rest := RemoveFirst(keys, StatusKey);
        var s :| 0 <= s < |keys| && keys[s] == StatusKey && StatusKey !in keys[..s] &&
                 rest == keys[..s] + keys[s + 1..];
        if s > 0 {
          assert keys[0] != StatusKey && rest[0] == keys[0];
        } else if rest != [] {
          assert rest[0] == keys[1] && keys[1] != keys[0];
        } else {
          assert keys == [StatusKey];
        }
      } else if keys != [] {
        assert keys[0] in keys;
      }
    }
  }

  /**
    One video of the per-video form: find the first pass and clean its
    "narrations"; the cleaned chunk list is written back under the same key.
   */
  function CleanVideo(passes: Value, statusRequired: bool): (r: Result<Value>)
    ensures r.Ok? ==> passes.Obj? && r.value.Obj? && Keys(r.value.entries) == Keys(passes.entries)
  {
    var key :- FirstPassKey(passes, statusRequired);
    var cleaned :- StripNarrations(Get(passes.entries, key).value);
    Ok(Obj(Update(passes.entries, key, cleaned)))
  }

  /**
    A cleaned video differs from the original only in its first pass, which is
    the result of `StripNarrations`; "status" and every other pass keep their
    values, and the keys keep their order.
   */
  lemma CleanVideoSpec(passes: Value, statusRequired: bool)
    requires CleanVideo(passes, statusRequired).Ok?
    ensures var k := FirstPassKey(passes, statusRequired).value;
      && Get(CleanVideo(passes, statusRequired).value.entries, k) ==
           Some(StripNarrations(Get(passes.entries, k).value).value)
      && forall j :: j != k ==> Get(CleanVideo(passes, statusRequired).value.entries, j) == Get(passes.entries, j)
  {
    var k := FirstPassKey(passes, statusRequired).value;
    var cleaned := StripNarrations(Get(passes.entries, k).value).value;
    forall j ensures Get(Update(passes.entries, k, cleaned), j) == if j == k then Some(cleaned) else Get(passes.entries, j) {
      GetUpdate(passes.entries, k, cleaned, j);
    }
  }

  /**
    A video whose chosen pass has nothing to strip, such as one with an empty
    "narrations" list, is written back exactly as it was.
   */
  lemma CleanVideoUnchanged(passes: Value, statusRequired: bool)
    requires FirstPassKey(passes, statusRequired).Ok?
    requires var p := Get(passes.entries, FirstPassKey(passes, statusRequired).value).value;
             StripNarrations(p) == Ok(p)
    ensures CleanVideo(passes, statusRequired) == Ok(passes)
  {
    UpdateSame(passes.entries, FirstPassKey(passes, statusRequired).value);
  }

  /**
    The two variants differ only where "status" is absent: there the strict
    one (status required) raises ValueError, and the lenient one goes on.
   */
  lemma StatusRequirement(passes: Value)
    requires passes.Obj?
    ensures CleanVideo(passes, true) ==
              if StatusKey in Keys(passes.entries) then CleanVideo(passes, false) else Raise(ValueError)
  {
  }

  function CleanVideoEntry(statusRequired: bool, video: Video): (r: Result<Video>)
    ensures r.Ok? ==> r.value.0 == video.0
  {
    var passes :- CleanVideo(video.1, statusRequired);
    Ok((video.0, passes))
  }

  /** The body of the loop over video ids, as the function that loop maps. */
  function EntryCleaner(statusRequired: bool): Video -> Result<Video>
  {
    (video: Video) => CleanVideoEntry(statusRequired, video)
  }

  /** The per-video cleaners: `for video_id in list(root.keys())`. */
  function CleanVideos(root: Value, statusRequired: bool): (r: Result<Value>)
    ensures !root.Obj? ==> r == Raise(AttributeError)
    ensures r.Ok? ==> root.Obj? && r.value.Obj? && |r.value.entries| == |root.entries|
  {
    if !root.Obj? then Raise(AttributeError)
    else
      var videos :- MapAll(root.entries, EntryCleaner(statusRequired));
      Ok(Obj(videos))
  }

  /**
    The per-video cleaners succeed exactly when every video does; they keep
    the video ids and their order, and replace each video by its cleaned form.
   */
  lemma CleanVideosSpec(root: Value, statusRequired: bool)
    requires root.Obj?
    ensures CleanVideos(root, statusRequired).Ok? <==>
              forall i :: 0 <= i < |root.entries| ==> CleanVideo(root.entries[i].1, statusRequired).Ok?
    ensures CleanVideos(root, statusRequired).Ok? ==>
      var out := CleanVideos(root, statusRequired).value;
      && out.Obj? && Keys(out.entries) == Keys(root.entries)
      && forall i :: 0 <= i < |root.entries| ==>
           out.entries[i].1 == CleanVideo(root.entries[i].1, statusRequired).value
  {
    var f := EntryCleaner(statusRequired);
    MapAllOk(root.entries, f);
    assert forall i :: 0 <= i < |root.entries| ==>
      (f(root.entries[i]).Ok? <==> CleanVideo(root.entries[i].1, statusRequired).Ok?);
  }

  /**
    When every video carries "status", the strict and the lenient per-video
    cleaners compute the same document.
   */
  lemma StrictAgreesWithLenient(root: Value)
    requires root.Obj?
    requires forall i :: 0 <= i < |root.entries| ==>
               root.entries[i].1.Obj? && StatusKey in Keys(root.entries[i].1.entries)
    ensures CleanVideos(root, true) == CleanVideos(root, false)
  {
    forall i | 0 <= i < |root.entries|
      ensures EntryCleaner(true)(root.entries[i]) == EntryCleaner(false)(root.entries[i])
    {
      StatusRequirement(root.entries[i].1);
    }
    MapAllCongruence(root.entries, EntryCleaner(true), EntryCleaner(false));
  }

  /** A parsed JSON document that the cleaners mutate in place. */
  class Document {
    var root: Value

    constructor (root: Value)
      ensures this.root == root
    {
      this.root := root;
    }
  }

  /** The chunk loop: `for chunk in chunks: del ...; del ...; del ...`. */
  method StripChunks(chunks: seq<Value>) returns (r: Result<seq<Value>>)
    ensures r == MapAll(chunks, StripChunk)
  {
    var done: seq<Value> := [];
    for i := 0 to |chunks|
      invariant MapAll(chunks[..i], StripChunk) == Ok(done)
    {
      MapAllStep(chunks, i, StripChunk);
      var chunk := Del(chunks[i], TimestampFrame);
      if chunk.Ok? {
        chunk := Del(chunk.value, UnmappedTimestampSec);
      }
      if chunk.Ok? {
        chunk := Del(chunk.value, AnnotationUid);
      }
      assert chunk == StripChunk(chunks[i]);
      if chunk.Raise? {
        return Raise(chunk.error);
      }
      done := done + [chunk.value];
    }
    assert chunks[..|chunks|] == chunks;
    return Ok(done);
  }

  /**
    The chunk list of one narration dict: look up "narrations", iterate it and
    strip each chunk; a list is written back with its stripped chunks.
   */
  method CleanChunkList(v: Value) returns (r: Result<Value>)
    ensures r == StripNarrations(v)
  {
    var narrations := Subscript(v, NarrationsKey);
    if narrations.Raise? {
      return Raise(narrations.error);
    }
    var chunks := Iter(narrations.value);
    if chunks.Raise? {
      return Raise(chunks.error);
    }
    var stripped := StripChunks(chunks.value);
    if stripped.Raise? {
      return Raise(stripped.error);
    }
    if narrations.value.Arr? {
      r := Ok(Obj(Update(v.entries, NarrationsKey, Arr(stripped.value))));
    } else {
      r := Ok(v);
    }
  }

  /** Writing position |done| of `done + rest` replaces the head of rest. */
  lemma ReplaceInPrefix<T>(done: seq<T>, rest: seq<T>, x: T)
    requires rest != []
    ensures (done + rest)[|done| := x] == done + [x] + rest[1..]
  {
  }

  /**
    One iteration of the per-video loop: choose the first pass, then clean
    its chunk list.
   */
  method CleanOneVideo(passes: Value, statusRequired: bool) returns (r: Result<Value>)
    ensures r == CleanVideo(passes, statusRequired)
  {
    var key := FirstPassKey(passes, statusRequired);
    if key.Raise? {
      return Raise(key.error);
    }
    var cleaned := CleanChunkList(Get(passes.entries, key.value).value);
    if cleaned.Raise? {
      return Raise(cleaned.error);
    }
    r := Ok(Obj(Update(passes.entries, key.value, cleaned.value)));
  }

  /**
    The per-video cleaning loop, mutating the document video by video. On
    success the document is `CleanVideos` of what it was; otherwise the
    exception `CleanVideos` names is raised.
   */
  method CleanPerVideo(doc: Document, statusRequired: bool) returns (raised: Option<Exception>)
    modifies doc
    ensures CleanVideos(old(doc.root), statusRequired).Ok? ==>
              raised == None && doc.root == CleanVideos(old(doc.root), statusRequired).value
    ensures CleanVideos(old(doc.root), statusRequired).Raise? ==>
              raised == Some(CleanVideos(old(doc.root), statusRequired).error)
  {
    if !doc.root.Obj? {
      return Some(AttributeError);
    }
    var videos := doc.root.entries;
    ghost var f := EntryCleaner(statusRequired);
    for j := 0 to |videos|
      invariant old(doc.root) == Obj(videos)
      invariant MapAll(videos[..j], f).Ok?
      invariant doc.root == Obj(MapAll(videos[..j], f).value + videos[j..])
    {
      MapAllStep(videos, j, f);
      var (videoId, passes) := videos[j];
      var cleaned := CleanOneVideo(passes, statusRequired);
      assert f(videos[j]) == CleanVideoEntry(statusRequired, (videoId, passes));
      if cleaned.Raise? {
        return Some(cleaned.error);
      }
      ReplaceInPrefix(MapAll(videos[..j], f).value, videos[j..], (videoId, cleaned.value));
      doc.root := Obj(doc.root.entries[j := (videoId, cleaned.value)]);
    }
    assert videos[..|videos|] == videos;
    return None;
  }
}
