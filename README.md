# NLQ generator converters, modelled in Dafny

The NLQ generator turns narration files into natural-language query
annotations. Each narration file is a JSON document of time-stamped
narration chunks. A local Llama chat model is shown a few-shot dialog and
asked to write a `language_queries` JSON document for a new narration file.
This project models the deterministic part of the two converters that do
this:

- **Narration cleaning.** Before a narration document is serialised into a
  prompt, every chunk loses `timestamp_frame`, `_unmapped_timestamp_sec` and
  `annotation_uid`. The flat form keeps its chunks under `narrations`. The
  per-video form maps each video id to its annotation passes and perhaps a
  `status` entry, and only the first pass other than `status` is cleaned.
  The batch converter treats `status` as optional. The script's cleaner
  removes it unconditionally and so raises `ValueError` without it.
- **Dialog assembly.** A seven-message few-shot prefix is built: a system
  prompt, then user and assistant turns alternating. User turns end their
  message and assistant turns end the turn. Each narration file gets a copy
  of that prefix plus one user turn holding the narration. The script writes
  out one list literal with the same eight-message shape; given the same
  prompt texts and narration it is the same dialog. The two scripts' own
  prompt texts differ, and the script's narration comes from its strict
  per-video cleaner rather than the flat one.
- **Reply extraction.** The batch converter proceeds in six steps:
  1. It re-prefixes the reply after its first `language_queries` with
     `{"language_queries`.
  2. It takes Python's `repr` of that.
  3. It deletes every escaped newline.
  4. It cuts from the first `{` to the last `}`.
  5. It appends `]}` when the text does not end with it.
  6. It deletes every backslash.

  The script keeps the reply from its first `{` on.

Python's semantics are written out explicitly:

- Exceptions are a `Result` datatype (`KeyError`, `TypeError`,
  `AttributeError`, `IndexError`, `ValueError`).
- A `for` loop stops at the first exception (`MapAll`).
- Dicts keep insertion order (an object is an ordered list of entries).
- The string methods `find`, `rfind`, slicing with negative and clamped
  indices, `split(sep, 1)[-1]`, `replace(pat, "")` and `endswith` follow
  Python.
- `repr` quotes and escapes as CPython does.

The cleaners mutate a `Document` in place. `generate_dialog` copies and
appends to a `MessageList` object, so the template left untouched is a
framing fact.

Modules: `Exceptions` (exceptions.dfy), `Json` (json.dfy), `Narration`
(narration.dfy), `Messages` (messages.dfy), `Text` (text.dfy), `PyRepr`
(pyrepr.dfy), `AnnotationConverter` (annotation_converter.dfy) and
`ScriptConverter` (script_converter.dfy).

A chunk missing one of the three keys makes the cleaner raise `KeyError`.
In the batch converter this ends the whole loop over the files: the `try`
covers only `json.loads` and the output write.

## Model

| member | source | states |
|---|---|---|
| Exceptions.MapAll | src/annotation_converter/converter.py:10-13 | a loop that completes yields one result per element |
| Exceptions.MapAllOk | src/annotation_converter/converter.py:10-13 | a `for` loop completes exactly when every iteration does, and then its results are the iterations' results in order |
| Exceptions.MapAllFirstRaise | src/annotation_converter/converter.py:10-13 | a loop that raises raises the exception of the first failing iteration, all earlier ones having completed |
| Exceptions.MapAllAppend | src/annotation_converter/converter.py:10-13 | running the loop over a + b is running it over a, then over b |
| Exceptions.MapAllCongruence | scripts/converter.py:8-17 | loops whose bodies agree on every element compute the same result |
| Exceptions.MapAllStep | src/annotation_converter/converter.py:17-26 | one more iteration after a completed prefix either raises that iteration's exception for the whole loop or extends the results by one |
| Json.Keys | src/annotation_converter/converter.py:19 | `list(d.keys())` has one key per entry |
| Json.KeysListed | scripts/converter.py:10-11 | a key is in the key list exactly when some entry is stored under it, so `'status' in keys` and `keys.remove('status')` ask whether the dict holds `status` |
| Json.Get | src/annotation_converter/converter.py:18 | a lookup finds a value exactly when the key is among the dict's keys, and the value is stored under that key |
| Json.Without | src/annotation_converter/converter.py:11-13 | the remaining entries are exactly those whose key was not deleted |
| Json.Update | src/annotation_converter/converter.py:10-14 | assigning to a present key keeps the dict's keys and their order |
| Json.GetWithout | src/annotation_converter/converter.py:11-13 | after deleting keys, those keys are gone and every other key keeps its value |
| Json.WithoutWithout | src/annotation_converter/converter.py:11-13 | successive deletions are one deletion of the union of the keys |
| Json.GetUpdate | src/annotation_converter/converter.py:10-14 | assigning a present key changes that key's value and no other |
| Json.UpdateSame | src/annotation_converter/converter.py:22-26 | assigning a key its current value leaves the dict as it was, so writing back a pass the loop did not change is no change |
| Json.Subscript | src/annotation_converter/converter.py:10 | `v[k]` succeeds exactly on a dict holding k; otherwise KeyError(k) on a dict and TypeError on anything else |
| Json.Del | src/annotation_converter/converter.py:11-13 | `del v[k]` succeeds exactly on a dict holding k and removes that key alone; otherwise KeyError(k) or TypeError |
| Json.Iter | src/annotation_converter/converter.py:10 | `for x in v` visits a list's elements in order, a dict's keys one per entry in insertion order, or a string's characters one by one as one-character strings; anything else raises TypeError |
| Narration.StripChunk | src/annotation_converter/converter.py:11-13 | the three `del`s succeed exactly when the chunk is a dict with all three volatile keys; they then leave the chunk with exactly its other entries, otherwise they raise the first missing key's KeyError |
| Narration.StripNarrations | src/annotation_converter/converter.py:9-14 | a successful clean returns a dict with the same keys in the same order |
| Narration.StripNarrationsOfList | src/annotation_converter/converter.py:9-14 | cleaning succeeds iff every chunk carries the three keys; afterwards every chunk lacks them and keeps its other entries, the chunk count and order are kept, and every other top-level key keeps its value |
| Narration.StripNarrationsFirstFailure | src/annotation_converter/converter.py:11-13 | a failing clean raises the error of the first chunk that lacks a key |
| Narration.StripNarrationsShapeErrors | src/annotation_converter/converter.py:10 | a non-dict raises TypeError, a missing `narrations` raises KeyError, a non-iterable or non-empty string/dict value raises TypeError, an empty one changes nothing |
| Narration.StripNarrationsTwiceRaises | src/annotation_converter/converter.py:11 | cleaning a non-empty list twice raises KeyError('timestamp_frame'): the cleaner is not idempotent |
| Narration.IndexOf | scripts/converter.py:11 | the position of the first occurrence of a present element |
| Narration.RemoveFirst | scripts/converter.py:11 | `list.remove` drops exactly the first occurrence and shortens the list by one |
| Narration.FirstPassKey | src/annotation_converter/converter.py:19-22 | a chosen pass key is one of the video's keys |
| Narration.FirstPassKeySpec | src/annotation_converter/converter.py:19-22 | the chosen pass is the first key other than `status`; choosing fails iff the value is no dict (AttributeError), `status` is required and absent (ValueError) or no other key exists (IndexError) |
| Narration.CleanVideo | src/annotation_converter/converter.py:18-26 | a cleaned video keeps its pass keys in order |
| Narration.CleanVideoSpec | src/annotation_converter/converter.py:22-26 | only the chosen pass changes, to its cleaned form; `status` and every other pass keep their values |
| Narration.StatusRequirement | scripts/converter.py:10-11 | the strict cleaner raises ValueError when `status` is absent and otherwise agrees with the lenient one |
| Narration.CleanVideoEntry | src/annotation_converter/converter.py:17-18 | a cleaned video keeps its id |
| Narration.CleanVideos | src/annotation_converter/converter.py:17-27 | a root that is no dict raises AttributeError at `.keys()`; a successful clean is a dict with as many videos as the root |
| Narration.CleanVideoUnchanged | src/annotation_converter/converter.py:22-26 | a video whose chosen pass has nothing to strip comes out exactly as it was |
| Narration.CleanVideosSpec | src/annotation_converter/converter.py:17-27 | the per-video clean succeeds iff every video does, keeps the video ids in order and replaces each video by its cleaned form |
| Narration.StrictAgreesWithLenient | scripts/converter.py:7-18 | when every video has `status`, the script's and the batch converter's cleaners produce the same document |
| Narration.StripChunks | src/annotation_converter/converter.py:10-13 | the chunk loop returns the stripped chunks or the first exception, as the loop specification says |
| Narration.CleanChunkList | src/annotation_converter/converter.py:9-14 | the body of the flat cleaner computes `StripNarrations` |
| Narration.CleanOneVideo | src/annotation_converter/converter.py:18-26 | one iteration of the per-video loop computes `CleanVideo` |
| Narration.CleanPerVideo | src/annotation_converter/converter.py:17-27 | mutating the document video by video leaves it equal to `CleanVideos` of its old value, or raises the exception `CleanVideos` names |
| Messages.AppendUserTurn | src/annotation_converter/converter.py:124-131 | appending a user turn to a few-shot dialog that ends with the assistant keeps the alternation and stop reasons, and the dialog then ends with the user |
| Messages.MessageList.Copy | src/annotation_converter/converter.py:125 | `list.copy()` returns a new list object with the same messages |
| Messages.MessageList.Append | src/annotation_converter/converter.py:130 | `list.append` adds the message at the end and changes nothing else |
| Text.Find | src/annotation_converter/converter.py:208 | `find` returns the first occurrence, or -1 exactly when there is none |
| Text.FindChar | src/annotation_converter/converter.py:208 | for one character, `find` succeeds iff the character occurs, at a position with none before it |
| Text.RFind | src/annotation_converter/converter.py:207 | `rfind` returns the last occurrence, or -1 exactly when there is none |
| Text.SliceIndex | src/annotation_converter/converter.py:209 | a bound in 0..n is kept; a negative bound no smaller than -n counts from the end; a bound below -n becomes 0 and one above n becomes n |
| Text.Slice | src/annotation_converter/converter.py:209 | an in-range slice is the substring between the bounds; any slice is a substring no longer than the string |
| Text.EndsWith | src/annotation_converter/converter.py:157 | a string that ends with the suffix is some text followed by the suffix |
| Text.EndsWithAppend | src/annotation_converter/converter.py:157 | any text followed by the suffix ends with it |
| Text.LastTwo | src/annotation_converter/converter.py:210 | comparing `s[-2:]` with a two-character string is `endswith` |
| Text.AfterFirst | src/annotation_converter/converter.py:204 | `split(sep, 1)[-1]` is what follows the first separator, or the whole string without one |
| Text.RemoveAll | src/annotation_converter/converter.py:205 | `replace(pat, "")` never lengthens and keeps every character that is not in the pattern; `RemoveAllDeletes` and `RemoveAllAtFirst` pin down what it deletes |
| Text.RemoveAllDeletes | src/annotation_converter/converter.py:205 | `replace(pat, "")` leaves a text without an occurrence of the pattern unchanged, and shortens one with an occurrence by at least the pattern's length |
| Text.RemoveAllAtFirst | src/annotation_converter/converter.py:205 | `replace(pat, "")` keeps the text before the first occurrence, drops that occurrence and goes on deleting in the rest, so every non-overlapping occurrence from the left goes, not only the first |
| Text.RemoveAllChar | src/annotation_converter/converter.py:213 | deleting a character removes all of it and keeps every other character |
| Text.RemoveAllCons | src/annotation_converter/converter.py:205 | a leading character that cannot start the pattern is kept |
| Text.RemoveAllPrefix | src/annotation_converter/converter.py:205 | a prefix free of the pattern's first character survives `replace` unchanged |
| Text.RemoveCharSuffix | src/annotation_converter/converter.py:213 | a suffix free of the deleted character survives at the end |
| Text.RemoveNothing | src/annotation_converter/converter.py:213 | deleting an absent character changes nothing |
| PyRepr.Hex | src/annotation_converter/converter.py:204 | escapes use exactly the requested number of lower-case hex digits |
| PyRepr.QuoteFor | src/annotation_converter/converter.py:204 | `repr` quotes with `'` or `"`; with a double quote in the text it is `'`, and it is `"` only when the text holds a single quote |
| PyRepr.EscapeChar | src/annotation_converter/converter.py:204 | a character is copied iff it is printable and neither the quote nor a backslash; otherwise its escape starts with a backslash |
| PyRepr.EscapeAll | src/annotation_converter/converter.py:204 | the escaped text is never shorter than the original, and empty exactly when the original is |
| PyRepr.Repr | src/annotation_converter/converter.py:204 | `repr` is the escaped text between two copies of the chosen quote |
| PyRepr.EscapeAppend | src/annotation_converter/converter.py:204 | escaping works character by character |
| PyRepr.EscapeVerbatim | src/annotation_converter/converter.py:204 | text of printable, unquoted characters is its own escape |
| PyRepr.EscapeKeepsCloseBrace | src/annotation_converter/converter.py:204 | escaped text holds a `}` exactly when the original does |
| AnnotationConverter.CleanNarrative | src/annotation_converter/converter.py:9-14 | in place, the document becomes `StripNarrations` of its old value, or the exception is raised |
| AnnotationConverter.CleanExNarrative | src/annotation_converter/converter.py:16-27 | in place, the document becomes the lenient per-video clean of its old value, or the exception is raised |
| AnnotationConverter.DialogTemplate | src/annotation_converter/converter.py:90-122 | seven messages: system, user, assistant, user, assistant, user, assistant; user turns end the message, assistant turns end the turn, the system turn has no stop reason; the prompts and examples sit at positions 0, 1, 3 and 5 |
| AnnotationConverter.GenerateDialog | src/annotation_converter/converter.py:124-131 | a new list holding the template followed by one user turn with the narration; the template is unchanged |
| AnnotationConverter.TaskDialog | src/annotation_converter/converter.py:179-184 | every dialog sent has eight messages ending assistant, user, and its last turn is the task narration ending its message |
| AnnotationConverter.Reprefix | src/annotation_converter/converter.py:204 | the text starts with `{"language_queries` followed by what comes after the first marker, or by the whole reply without one |
| AnnotationConverter.BraceSlice | src/annotation_converter/converter.py:207-209 | with no `}` the slice is empty; with a `{` before the last `}` it runs from the first `{` to the last `}` inclusive; a missing `{` reads as -1 |
| AnnotationConverter.CloseBrackets | src/annotation_converter/converter.py:210-211 | the result ends with `]}`, and the text is unchanged when it already did |
| AnnotationConverter.StripBackslashes | src/annotation_converter/converter.py:213 | no backslash remains, every other character stays, and a `]}` ending survives |
| AnnotationConverter.ExtractQueries | src/annotation_converter/converter.py:204-213 | the extracted text never holds a backslash and always ends with `]}` |
| AnnotationConverter.PrefixVerbatim | src/annotation_converter/converter.py:204 | `repr` copies every character of `{"language_queries` unchanged |
| AnnotationConverter.JoinedHead | src/annotation_converter/converter.py:204-205 | `repr` picks the single quote for text holding a double quote, and a verbatim head survives it and the newline deletion |
| AnnotationConverter.JoinedShape | src/annotation_converter/converter.py:204-205 | after lines 204-205 the text is a quote, `{"language_queries`, then the processed tail |
| AnnotationConverter.JoinedTailBrace | src/annotation_converter/converter.py:204-205 | the processed tail holds a `}` exactly when the reply's tail does |
| AnnotationConverter.FirstBraceAfterQuote | src/annotation_converter/converter.py:208 | the first `{` found is the one right after the opening quote |
| AnnotationConverter.FinishNoBrace | src/annotation_converter/converter.py:207-213 | without a `}` the last steps leave just `]}` |
| AnnotationConverter.FinishWithBrace | src/annotation_converter/converter.py:207-213 | with a `}` after the head, the last steps keep the head in front, followed by more text |
| AnnotationConverter.ExtractQueriesShape | src/annotation_converter/converter.py:204-213 | the result is `]}` exactly when no `}` follows the marker; otherwise it starts with `{"language_queries` |
| AnnotationConverter.FinishClean | src/annotation_converter/converter.py:207-213 | a head and a body that already end in `]}` and hold no backslash come out unchanged |
| AnnotationConverter.JoinedClean | src/annotation_converter/converter.py:204-205 | after `repr` and the newline deletion, a verbatim head and a tail of verbatim characters and line breaks are the head and the tail without line breaks between two single quotes |
| AnnotationConverter.NoBackslashLeft | src/annotation_converter/converter.py:204-205 | a tail of verbatim characters and line breaks holds no backslash once the line breaks are gone |
| AnnotationConverter.CleanHeadAndTail | src/annotation_converter/converter.py:204-213 | for any verbatim head starting with `{` and holding a double quote, no `}` and no backslash, a clean tail ending in `]}` comes out as the head followed by the tail without line breaks |
| AnnotationConverter.EscapeThenJoin | src/annotation_converter/converter.py:204-205 | escaping line breaks and deleting the escaped newlines is deleting the line breaks |
| AnnotationConverter.CleanReplyExtraction | src/annotation_converter/converter.py:204-213 | a reply whose tail needs no escaping apart from line breaks, and which ends in `]}` once they are gone, is extracted as `{"language_queries` plus that tail without line breaks |
| AnnotationConverter.JsonInputs | src/annotation_converter/converter.py:157 | exactly the names ending in `.json` are kept |
| AnnotationConverter.JsonInputsAppend | src/annotation_converter/converter.py:157 | the filter keeps the listing order |
| AnnotationConverter.ConvertOne | src/annotation_converter/converter.py:182-213 | a file converts iff its narration cleans; the failure is the cleaning exception; the output holds no backslash and ends with `]}` |
| AnnotationConverter.ConvertAll | src/annotation_converter/converter.py:179-218 | the loop over files yields each file's conversion in order, or stops with the first file's cleaning exception, having produced the outputs of exactly the files before it; the template is unchanged |
| ScriptConverter.CleanNarrative | scripts/converter.py:7-18 | in place, the document becomes the strict per-video clean of its old value, or the exception is raised |
| ScriptConverter.MissingStatusRaises | scripts/converter.py:11 | the first video without `status`, after videos that clean, makes the cleaner raise ValueError |
| ScriptConverter.InlineDialog | scripts/converter.py:115-151 | eight messages: system, then user and assistant alternating, ending with the task narration as a user turn that ends its message |
| ScriptConverter.InlineDialogMatchesTemplate | scripts/converter.py:115-151 | given the same prompt texts and narration, the script's dialog is the batch converter's template plus the task turn |
| ScriptConverter.ExtractReply | scripts/converter.py:171 | the result starts with `{`: it is the reply from its first `{` on, or `{` plus the whole reply when there is none |
| ScriptConverter.ExtractReplyIdempotent | scripts/converter.py:171 | extracting twice is extracting once |

## Left out

- The Llama model, its tokenizer and `chat_completion` are outside the model. Generation is a function parameter of `ConvertAll` (and `ConvertOne`).
- AnnotationConverter.ConvertAll: `chat_completion` samples with temperature 0.8 and top_p 0.9, so the same dialog can get different replies. The model collapses that randomness into the fixed function `generate`, so two files with identical dialogs get the same output.
- Length settings (`max_seq_len`, `max_gen_len`, `max_batch_size`), `fire`, `tqdm` and `print` are outside the model.
- File and directory I/O is outside the model: `open`, `os.listdir`, `os.makedirs`, `json.dump` to disk and the script's hard-coded paths. The directory listing is an argument of `JsonInputs`, and the parsed narrations are arguments of `ConvertAll`.
- `json.load` and `json.dumps` are library code. Parsed JSON is the `Value` tree, and serialisation is a function parameter.
- The final `json.loads` and the write that follows it are not modelled. `ConvertAll` returns the text handed to `json.loads`.
- The prompt texts are parameters of the dialog functions. This covers the system prompt, the first prompt and the JSON templates in them, and the serialised example files. The three assistant replies are constants.
- PyRepr.EscapeChar: Unicode's printability table for non-ASCII characters is the parameter `printable`, not a table.
- Narration.CleanPerVideo: the document's state after an exception is not described; Python leaves the videos cleaned so far mutated.
- AnnotationConverter.CleanNarrative: the document's state after an exception is not described; Python leaves the chunks cleaned so far mutated.
- Narration.StripChunks: the model rebuilds a chunk list from stripped copies. Python deletes keys from the shared chunk dicts in place, and no aliasing between chunks is modelled.
- JSON numbers are reals and never inspected. Floating-point behaviour is not modelled.
- The interactive chat scripts and the text-completion example are outside the model: they are loops around the external generator.
- AnnotationConverter.ExtractQueriesShape: when `}` occurs, only `|r| > |{"language_queries|` is stated, not the full length.
