# AI Studio chat export converter — Dafny model

This project models the conversion step of `convert_json_format`, which turns
an AI Studio chat export into the message list of a chat web app. The input
document holds a `chunkedPrompt` object with an ordered array of `chunks`. Each
chunk has an optional `role`, an `isThought` flag, and either a `parts` array
or a direct `text` string. The output is a `messages` array. Each message has
a `role` and exactly one `{"type": "text", "text": ...}` content block.

The conversion walks the chunks in order:

- thought chunks are skipped;
- the role `"model"` becomes `"assistant"`, a missing role becomes `"user"`, and
  any other role is kept;
- the text is built from the parts: plain strings, and the `text` of objects not
  marked as thoughts, joined with no separator;
- a direct `text` is used only when there is no `parts` array;
- a message is emitted only when the text is non-empty after Python's `strip()`,
  and the message stores the text unstripped.

Modules:

- `Wrappers` (`wrappers.dfy`): `Option`, standing in for a JSON key that may be absent.
- `Text` (`text.dfy`): the whitespace set of Python's `str.isspace()` and a model
  of `str.strip()`. It proves that a string strips to empty exactly when all its
  characters are whitespace.
- `Schema` (`schema.dfy`): the input document (`Document`, `ChunkedPrompt`,
  `Chunk`, `Part`) and the output (`Message`, `ContentBlock`) as parsed values.
- `Converter` (`converter.dfy`): the conversion as pure functions. It also has two
  methods whose loops follow the Python converter's accumulate-as-you-go loops; each is
  proved to compute the same result as the functions.
- `Properties` (`properties.dfy`): lemmas about part text, the single-chunk
  emission rule, order preservation, and a worked two-turn example.

## Model

| member | source | states |
|---|---|---|
| Text.IsWhitespace | convert_json_format.py:61 | the characters `strip()` removes: exactly the code points Python's `str.isspace()` accepts (U+0009 to U+000D, U+001C to U+0020, U+0085, U+00A0, U+1680, U+2000 to U+200A, U+2028, U+2029, U+202F, U+205F, U+3000) |
| Text.TrimStart | convert_json_format.py:61 | strip's leading half: the result is a suffix of the input, everything removed is whitespace, and the result does not start with whitespace |
| Text.TrimEnd | convert_json_format.py:61 | strip's trailing half: the result is a prefix of the input, everything removed is whitespace, and the result does not end with whitespace |
| Text.Strip | convert_json_format.py:61 | `strip()` returns the contiguous slice of the input that starts right after its leading whitespace; every character outside the slice is whitespace, and a non-empty result starts and ends with non-whitespace |
| Text.StripMiddle | convert_json_format.py:61 | trimming the start and then the end leaves a slice of the input, and everything cut off on either side is whitespace |
| Text.StripEmptyIff | convert_json_format.py:61 | `text.strip()` is falsy exactly when every character of the text is whitespace, the empty string included |
| Converter.MapRole | convert_json_format.py:41 | `"model"` maps to `"assistant"`, an absent role maps to `"user"`, any other role string passes through unchanged, and so `"model"` never appears as an output role |
| Converter.PartText | convert_json_format.py:50-55 | what one part contributes: a plain string verbatim, an object's `text` unless `thought` is true, nothing for an object without `text` or a non-string value; its behaviour is stated by `SilentPartsEmpty` and `ThoughtPartsIgnored` |
| Converter.PartsText | convert_json_format.py:49-55 | the in-order, separator-free concatenation of the parts' contributions; stated by `ConcatParts` (the loop computes it), `PartsTextAppend`, `SilentPartsEmpty`, `ThoughtPartsIgnored` and `PartsBlankIff` |
| Converter.ChunkText | convert_json_format.py:44-58 | the chunk's text: the parts' text when `parts` is present, else the direct `text`, else `""`; stated by `DirectTextIgnored`, `DirectTextUsedWithoutParts`, `EmptyPartsNoMessage` and `NoTextNoMessage` |
| Converter.ConcatParts | convert_json_format.py:44-55 | the parts loop, appending plain strings and non-thought object texts to an accumulator, yields exactly the in-order concatenation `PartsText` |
| Converter.ConvertChunk | convert_json_format.py:36-71 | a chunk yields a message iff it is not a thought and its text has a non-whitespace character; the message has the mapped role and one `"text"` block holding the unstripped text |
| Converter.ConvertChunks | convert_json_format.py:35-71 | the conversion never yields more messages than there are chunks |
| Converter.ConvertDocument | convert_json_format.py:27-33 | a document without `chunkedPrompt`, or whose `chunkedPrompt` has no `chunks`, yields no messages; otherwise the result is the chunk list's conversion |
| Converter.Convert | convert_json_format.py:27-71 | the Python loop (skip thoughts, map the role, build the text, append when the stripped text is non-empty) computes exactly `ConvertDocument` |
| Properties.PartsTextAppend | convert_json_format.py:49-55 | the text of two part arrays joined is the first array's text followed by the second's: parts contribute independently and in order |
| Properties.SilentPartsEmpty | convert_json_format.py:50-55 | parts that are all thought objects, objects without `text`, or non-string values contribute the empty string |
| Properties.ThoughtPartsIgnored | convert_json_format.py:50-53 | removing every thought part leaves the chunk's text unchanged, whatever text those parts carry |
| Properties.PartsBlankIff | convert_json_format.py:49-61 | the parts' concatenated text is all whitespace iff each part's contribution is all whitespace |
| Properties.DirectTextIgnored | convert_json_format.py:47-58 | when `parts` is present, changing the direct `text` field never changes whether or what message is produced |
| Properties.DirectTextUsedWithoutParts | convert_json_format.py:56-71 | without `parts`, a non-thought chunk whose direct `text` is not blank yields a message holding that text unstripped |
| Properties.NoTextNoMessage | convert_json_format.py:44-61 | a chunk with neither `parts` nor `text` has the text `""` and yields no message |
| Properties.EmptyPartsNoMessage | convert_json_format.py:47-61 | a chunk with an empty `parts` array yields no message, whatever its direct `text` |
| Properties.BlankPartsNoMessage | convert_json_format.py:49-61 | a chunk whose parts each contribute only whitespace or nothing, for example because all are thoughts, yields no message |
| Properties.VisiblePartEmits | convert_json_format.py:49-71 | a non-thought chunk with one part contributing a non-whitespace character always yields a message |
| Properties.ConvertChunksAppend | convert_json_format.py:35-71 | converting two chunk lists joined is converting each and joining the results: each chunk is converted independently of the others |
| Properties.SingleChunk | convert_json_format.py:35-71 | a one-chunk list converts to that chunk's message, or to nothing when it has none |
| Properties.TwoChunks | convert_json_format.py:35-71 | a two-chunk list converts to the first chunk's messages followed by the second's; when both produce a message, the output is exactly those two, in input order |
| Properties.ThoughtChunkInsertion | convert_json_format.py:37-38 | inserting a thought chunk anywhere in the chunk list leaves the output unchanged |
| Properties.MessagesWellFormed | convert_json_format.py:61-71 | every output message has exactly one content block, of type `"text"`, whose text is not blank |
| Properties.EmittersLength | convert_json_format.py:35-71 | there is exactly one selected chunk position per output message |
| Properties.EmittersMatch | convert_json_format.py:35-71 | message k is what the chunk at the k-th selected position converts to |
| Properties.EmittersIncreasing | convert_json_format.py:35-71 | the selected positions strictly increase, so no message is reordered and no chunk yields two messages |
| Properties.EmittersComplete | convert_json_format.py:35-71 | every chunk that converts to a message is among the selected positions |
| Properties.ConvertIsOrderedSelection | convert_json_format.py:35-71 | the output is the order-preserving subsequence of the chunks that produce a message, each message from exactly one chunk |
| Properties.MessageSources | convert_json_format.py:37-71 | the chunk behind any output message is not a thought, and it gives the message its mapped role and its one text block |
| Properties.ThoughtChunkNotSelected | convert_json_format.py:37-38 | no thought chunk is the source of any output message |
| Properties.UserTurnExample | convert_json_format.py:41-71 | a user chunk with one part `"Hi"` becomes a `"user"` message with text `"Hi"` |
| Properties.ModelTurnExample | convert_json_format.py:41-71 | a model chunk with parts `"Hello"` and a thought `" there"` becomes an `"assistant"` message with text `"Hello"` |
| Properties.TwoTurnExample | convert_json_format.py:27-71 | the document holding both chunks above converts to those two messages, in order |

## Left out

- Reading the input file, parsing JSON, and writing the output with two-space
  indentation and non-ASCII characters kept literal (convert_json_format.py:23-24,
  74-75). The model starts from already-parsed typed values and ends with the
  message list.
- The two summary lines printed after conversion (convert_json_format.py:77-78).
  They are console output.
- The command-line entry point `main` (convert_json_format.py:81-103): the
  argument-count check, the input-existence check, and the mapping of parse and
  other errors to exit code 1. This is process plumbing around the conversion.
- Python truthiness of non-boolean `isThought` and `thought` values. Both are
  modelled as booleans, and a missing key is `false`.
- Non-string values for a chunk's `role` or `text`, or for a part's `text`.
  `convert_json_format` passes a non-string `role` through unchanged, and a
  present `"role": null` becomes a null output role rather than `"user"`. A
  non-string direct `text` never reaches the output: no non-string JSON value
  has `strip()`, so line 61 raises `AttributeError`. A non-string part `text`
  raises `TypeError` when concatenated at line 53. The model types all of these
  fields as strings.
- Malformed document shapes, which the typed schema cannot express.
  `convert_json_format` behaves as follows on them:
  a string-valued `parts` is iterated character by character (line 49), and each
  character is appended (lines 54-55), so `"parts": "hi"` gives the text `"hi"`;
  an object-valued `parts` appends its keys in order; a null or numeric `parts`
  raises `TypeError`;
  a chunk that is not an object raises `AttributeError` at line 37;
  a null `chunkedPrompt` raises `TypeError` at line 32, and a null `chunks`
  raises `TypeError` at line 35;
  a top-level array yields `{"messages": []}` at line 32, unless it contains
  the string `"chunkedPrompt"`, in which case indexing it raises `TypeError`;
  a string-valued `chunkedPrompt` passes the line-32 guard when it contains the
  substring `chunks`, and indexing it then raises `TypeError`.
- `convert_json_format` returns nothing; the message count it prints is
  `|ConvertDocument(doc)|`.
- Whitespace is the fixed set of code points that Python's `str.isspace()`
  accepts. The model does not consult a Unicode database.
