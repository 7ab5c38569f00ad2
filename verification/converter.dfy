/**
 * The chunk-to-message transformation at the heart of `convert_json_format`:
 * pure definitions, plus two methods whose loops follow the Python
 * converter's accumulate-as-you-go structure and are proved equal to them.
 */
module Converter {
  import opened Wrappers
  import opened Text
  import opened Schema

  /** The output role of a chunk: "model" is renamed to "assistant", an absent
      role becomes "user", and every other role string is kept as it is. So
      "model" never reaches the output. */
  function MapRole(role: Option<string>): (r: string)
    ensures r != "model"
    ensures role == Some("model") ==> r == "assistant"
    ensures role == None ==> r == "user"
    ensures role.Some? && role.value != "model" ==> r == role.value
  {
    if role == Some("model") then "assistant" else role.GetOr("user")
  }

  /** The text one part contributes: a plain string verbatim, an object's
      "text" unless it is marked as a thought, and nothing otherwise. */
  function PartText(p: Part): (r: string) {
    match p
    case PlainText(s) => s
    case Annotated(text, thought) => if text.Some? && !thought then text.value else ""
    case Other => ""
  }

  /** The in-order, separator-free concatenation of what every part contributes. */
  function PartsText(parts: seq<Part>): (r: string)
    decreases |parts|
  {
    if |parts| == 0 then ""
    else PartsText(parts[..|parts| - 1]) + PartText(parts[|parts| - 1])
  }

  /** The concatenation loop over a chunk's parts, appending to an accumulator
      as the Python converter does; it computes exactly `PartsText`. */
  method ConcatParts(parts: seq<Part>) returns (text: string)
    ensures text == PartsText(parts)
  {
    text := "";
    for i := 0 to |parts|
      invariant text == PartsText(parts[..i])
    {
      var part := parts[i];
      match part {
        case Annotated(t, thought) =>
          if t.Some? && !thought {
            text := text + t.value;
          }
        case PlainText(s) =>
          text := text + s;
        case Other =>
      }
      assert parts[..i + 1][..i] == parts[..i];
    }
    assert parts[..|parts|] == parts;
  }

  /** The text of a chunk: its parts' text when "parts" is present (even when
      the array is empty), otherwise its direct "text", otherwise "". */
  function ChunkText(c: Chunk): (r: string)
  {
    match c.parts
    case Some(ps) => PartsText(ps)
    case None => c.text.GetOr("")
  }

  /** The message a single chunk turns into, if any. A message appears exactly
      when the chunk is not a thought and its text has a non-whitespace
      character; it then carries the mapped role and one "text" block holding
      the unstripped text. */
  function ConvertChunk(c: Chunk): (r: Option<Message>)
    ensures r.Some? <==> !c.isThought && !AllWhitespace(ChunkText(c))
    ensures r.Some? ==> r.value.role == MapRole(c.role)
    ensures r.Some? ==> r.value.content == [ContentBlock(TextType, ChunkText(c))]
  {
    if c.isThought then None
    else
      var text := ChunkText(c);
      StripEmptyIff(text);
      if Strip(text) != [] then Some(Message(MapRole(c.role), [ContentBlock(TextType, text)]))
      else None
  }

  /** The messages of a chunk list, in chunk order: at most one per chunk. */
  function ConvertChunks(chunks: seq<Chunk>): (r: seq<Message>)
    ensures |r| <= |chunks|
    decreases |chunks|
  {
    if |chunks| == 0 then []
    else
      var earlier := ConvertChunks(chunks[..|chunks| - 1]);
      match ConvertChunk(chunks[|chunks| - 1])
      case Some(m) => earlier + [m]
      case None => earlier
  }

  /** The messages of a whole document: none when "chunkedPrompt" or its
      "chunks" is missing, otherwise those of the chunk list. */
  function ConvertDocument(doc: Document): (r: seq<Message>)
    ensures doc.chunkedPrompt.None? ==> r == []
    ensures doc.chunkedPrompt.Some? && doc.chunkedPrompt.value.chunks.None? ==> r == []
    ensures doc.chunkedPrompt.Some? && doc.chunkedPrompt.value.chunks.Some? ==>
              r == ConvertChunks(doc.chunkedPrompt.value.chunks.value)
  {
    match doc.chunkedPrompt
    case Some(ChunkedPrompt(Some(chunks))) => ConvertChunks(chunks)
    case _ => []
  }

  /** The conversion loop of `convert_json_format`, step for step: skip thought chunks,
      map the role, build the text, append a message when the stripped text is
      non-empty. It computes exactly `ConvertDocument`. */
  method Convert(doc: Document) returns (messages: seq<Message>)
    ensures messages == ConvertDocument(doc)
  {
    messages := [];
    if doc.chunkedPrompt.Some? && doc.chunkedPrompt.value.chunks.Some? {
      var chunks := doc.chunkedPrompt.value.chunks.value;
      for i := 0 to |chunks|
        invariant messages == ConvertChunks(chunks[..i])
      {
        assert chunks[..i + 1][..i] == chunks[..i];
        var chunk := chunks[i];
        if chunk.isThought {
          continue;
        }
        var role := MapRole(chunk.role);
        var text := "";
        if chunk.parts.Some? {
          text := ConcatParts(chunk.parts.value);
        } else if chunk.text.Some? {
          text := chunk.text.value;
        }
        if Strip(text) != [] {
          messages := messages + [Message(role, [ContentBlock(TextType, text)])];
        }
      }
      assert chunks[..|chunks|] == chunks;
    }
  }
}
