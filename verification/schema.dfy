/**
 * The two document shapes the converter relates, as already-parsed values:
 * the chunked-prompt export it reads and the message list it writes.
 */
module Schema {
  import opened Wrappers

  /** One element of a chunk's `parts` array. */
  datatype Part =
      /** a bare JSON string */
    | PlainText(s: string)
      /** a JSON object; `text` is absent when the object has no "text" key,
          `thought` is false when the object has no "thought" key */
    | Annotated(text: Option<string>, thought: bool)
      /** any other JSON value (number, array, null, boolean) */
    | Other

  /** One turn or thought fragment of the exported conversation. Absent keys
      are `None`; an absent "isThought" is `false`. */
  datatype Chunk = Chunk(
    isThought: bool,
    role: Option<string>,
    parts: Option<seq<Part>>,
    text: Option<string>)

  /** The "chunkedPrompt" object; `chunks` is `None` when it has no "chunks" key. */
  datatype ChunkedPrompt = ChunkedPrompt(chunks: Option<seq<Chunk>>)

  /** The input document; only its "chunkedPrompt" key is interpreted. */
  datatype Document = Document(chunkedPrompt: Option<ChunkedPrompt>)

  /** A `{"type": ..., "text": ...}` content block of the output. */
  datatype ContentBlock = ContentBlock(blockType: string, text: string)

  /** A `{"role": ..., "content": [...]}` message of the output. */
  datatype Message = Message(role: string, content: seq<ContentBlock>)

  /** The only block type the converter produces. */
  const TextType: string := "text"
}
