/**
 * Properties of the conversion: how part text composes, which parts and
 * chunks can never be seen in the output, and that the output is the
 * order-preserving selection of the chunks that produce a message.
 */
module Properties {
  import opened Wrappers
  import opened Text
  import opened Schema
  import opened Converter

  // ---------------------------------------------------------------------------
  // Part level
  // ---------------------------------------------------------------------------

  /** Concatenating the parts of two arrays is concatenating their texts. */
  lemma {:induction false} PartsTextAppend(a: seq<Part>, b: seq<Part>)
    ensures PartsText(a + b) == PartsText(a) + PartsText(b)
    decreases |b|
  {
    if |b| == 0 {
      assert a + b == a;
    } else {
      var b' := b[..|b| - 1];
      assert (a + b)[..|a + b| - 1] == a + b';
      assert (a + b)[|a + b| - 1] == b[|b| - 1];
      PartsTextAppend(a, b');
      var x, y, z := PartsText(a), PartsText(b'), PartText(b[|b| - 1]);
      assert (x + y) + z == x + (y + z);
    }
  }

  /** A part that contributes no text at all, whatever strings it holds: a
      thought object, an object without "text", or a non-string value. */
  predicate Silent(p: Part) {
    p.Other? || (p.Annotated? && (p.thought || p.text.None?))
  }

  /** Parts that are all silent give the empty string. */
  lemma {:induction false} SilentPartsEmpty(parts: seq<Part>)
    requires forall i :: 0 <= i < |parts| ==> Silent(parts[i])
    ensures PartsText(parts) == ""
    decreases |parts|
  {
    if |parts| > 0 {
      SilentPartsEmpty(parts[..|parts| - 1]);
    }
  }

  /** A part object marked as a thought. */
  predicate IsThoughtPart(p: Part) {
    p.Annotated? && p.thought
  }

  /** The parts with every thought object removed, in their original order. */
  function DropThoughtParts(parts: seq<Part>): (r: seq<Part>)
    ensures |r| <= |parts|
    ensures forall j :: 0 <= j < |r| ==> !IsThoughtPart(r[j]) && r[j] in parts
    decreases |parts|
  {
    if |parts| == 0 then []
    else
      var kept := DropThoughtParts(parts[..|parts| - 1]);
      if IsThoughtPart(parts[|parts| - 1]) then kept else kept + [parts[|parts| - 1]]
  }

  /** Thought parts are invisible: removing them leaves the text unchanged,
      however much text they carry. */
  lemma {:induction false} ThoughtPartsIgnored(parts: seq<Part>)
    ensures PartsText(DropThoughtParts(parts)) == PartsText(parts)
    decreases |parts|
  {
    if |parts| > 0 {
      var init := parts[..|parts| - 1];
      var last := parts[|parts| - 1];
      ThoughtPartsIgnored(init);
      if !IsThoughtPart(last) {
        PartsTextAppend(DropThoughtParts(init), [last]);
        assert [last][..0] == [];
      }
    }
  }

  /** The parts' text is blank exactly when what each part contributes is blank. */
  lemma {:induction false} PartsBlankIff(parts: seq<Part>)
    ensures AllWhitespace(PartsText(parts)) <==>
              forall i :: 0 <= i < |parts| ==> AllWhitespace(PartText(parts[i]))
    decreases |parts|
  {
    if |parts| > 0 {
      var init := parts[..|parts| - 1];
      PartsBlankIff(init);
      AllWhitespaceAppend(PartsText(init), PartText(parts[|parts| - 1]));
      assert forall i :: 0 <= i < |init| ==> init[i] == parts[i];
    }
  }

  // ---------------------------------------------------------------------------
  // Chunk level
  // ---------------------------------------------------------------------------

  /** When "parts" is present the chunk's direct "text" plays no part, even if
      the parts array is empty. */
  lemma DirectTextIgnored(c: Chunk, t: Option<string>)
    requires c.parts.Some?
    ensures ConvertChunk(c.(text := t)) == ConvertChunk(c)
  {
  }

  /** An empty parts array yields no message, whatever the direct "text" says. */
  lemma EmptyPartsNoMessage(c: Chunk)
    requires c.parts == Some([])
    ensures ConvertChunk(c) == None
  {
  }

  /** Without "parts", a non-thought chunk's direct "text" is the message text,
      kept unstripped, provided it is not blank. */
  lemma DirectTextUsedWithoutParts(c: Chunk, t: string)
    requires c.parts.None? && c.text == Some(t) && !c.isThought && !AllWhitespace(t)
    ensures ConvertChunk(c) == Some(Message(MapRole(c.role), [ContentBlock(TextType, t)]))
  {
  }

  /** A chunk with neither "parts" nor "text" has the empty text and yields
      no message. */
  lemma NoTextNoMessage(c: Chunk)
    requires c.parts.None? && c.text.None?
    ensures ChunkText(c) == ""
    ensures ConvertChunk(c) == None
  {
  }

  /** A chunk whose parts each contribute only whitespace, or nothing at all
      (for instance because every one is a thought), yields no message. */
  lemma BlankPartsNoMessage(c: Chunk)
    requires c.parts.Some?
    requires forall i :: 0 <= i < |c.parts.value| ==> AllWhitespace(PartText(c.parts.value[i]))
    ensures ConvertChunk(c) == None
  {
    PartsBlankIff(c.parts.value);
  }

  /** Conversely, a non-thought chunk with one part contributing a
      non-whitespace character always yields a message. */
  lemma VisiblePartEmits(c: Chunk, i: nat)
    requires !c.isThought && c.parts.Some?
    requires i < |c.parts.value| && !AllWhitespace(PartText(c.parts.value[i]))
    ensures ConvertChunk(c).Some?
  {
    PartsBlankIff(c.parts.value);
  }

  // ---------------------------------------------------------------------------
  // Chunk-list level
  // ---------------------------------------------------------------------------

  /** Converting two chunk lists one after the other is converting their
      concatenation: each chunk is converted on its own. */
  lemma {:induction false} ConvertChunksAppend(a: seq<Chunk>, b: seq<Chunk>)
    ensures ConvertChunks(a + b) == ConvertChunks(a) + ConvertChunks(b)
    decreases |b|
  {
    if |b| == 0 {
      assert a + b == a;
    } else {
      var b' := b[..|b| - 1];
      assert (a + b)[..|a + b| - 1] == a + b';
      ConvertChunksAppend(a, b');
    }
  }

  /** A single chunk converts to its own message or to nothing. */
  lemma SingleChunk(c: Chunk)
    ensures ConvertChunks([c]) == if ConvertChunk(c).Some? then [ConvertChunk(c).value] else []
  {
    assert [c][..0] == [];
  }

  /** Two chunks convert one after the other: the first chunk's message, if
      any, comes before the second's. */
  lemma TwoChunks(first: Chunk, second: Chunk)
    ensures ConvertChunks([first, second]) == ConvertChunks([first]) + ConvertChunks([second])
    ensures ConvertChunk(first).Some? && ConvertChunk(second).Some? ==>
              ConvertChunks([first, second]) == [ConvertChunk(first).value, ConvertChunk(second).value]
  {
    SingleChunk(first);
    SingleChunk(second);
    ConvertChunksAppend([first], [second]);
    assert [first] + [second] == [first, second];
  }

  /** Inserting a thought chunk anywhere leaves the output unchanged. */
  lemma ThoughtChunkInsertion(a: seq<Chunk>, t: Chunk, b: seq<Chunk>)
    requires t.isThought
    ensures ConvertChunks(a + [t] + b) == ConvertChunks(a + b)
  {
    ConvertChunksAppend(a + [t], b);
    ConvertChunksAppend(a, [t]);
    ConvertChunksAppend(a, b);
    assert [t][..0] == [];
  }

  /** The positions of the chunks that produce a message, in increasing order. */
  function Emitters(chunks: seq<Chunk>): (idx: seq<nat>)
    ensures forall k :: 0 <= k < |idx| ==> idx[k] < |chunks|
    decreases |chunks|
  {
    if |chunks| == 0 then []
    else
      var earlier := Emitters(chunks[..|chunks| - 1]);
      if ConvertChunk(chunks[|chunks| - 1]).Some? then earlier + [|chunks| - 1] else earlier
  }

  /** A message shaped as the converter emits it: exactly one content block,
      of type "text", whose text is not blank. */
  predicate WellFormed(m: Message) {
    |m.content| == 1 && m.content[0].blockType == TextType && !AllWhitespace(m.content[0].text)
  }

  /** Every message of the output is well formed. */
  lemma {:induction false} MessagesWellFormed(chunks: seq<Chunk>, k: nat)
    requires k < |ConvertChunks(chunks)|
    ensures WellFormed(ConvertChunks(chunks)[k])
    decreases |chunks|
  {
    var init := chunks[..|chunks| - 1];
    if k < |ConvertChunks(init)| {
      MessagesWellFormed(init, k);
    }
  }

  /** There is one selected position per message. */
  lemma {:induction false} EmittersLength(chunks: seq<Chunk>)
    ensures |Emitters(chunks)| == |ConvertChunks(chunks)|
    decreases |chunks|
  {
    if |chunks| > 0 {
      EmittersLength(chunks[..|chunks| - 1]);
    }
  }

  /** Message k is what the chunk at the k-th selected position converts to. */
  lemma {:induction false} EmittersMatch(chunks: seq<Chunk>, k: nat)
    requires k < |Emitters(chunks)|
    ensures k < |ConvertChunks(chunks)|
    ensures ConvertChunk(chunks[Emitters(chunks)[k]]) == Some(ConvertChunks(chunks)[k])
    decreases |chunks|
  {
    var n := |chunks|;
    var init := chunks[..n - 1];
    EmittersLength(init);
    if k < |Emitters(init)| {
      EmittersMatch(init, k);
      assert init[Emitters(init)[k]] == chunks[Emitters(init)[k]];
    }
  }

  /** The selected positions strictly increase: nothing is reordered and no
      chunk yields two messages. */
  lemma {:induction false} EmittersIncreasing(chunks: seq<Chunk>, k: nat, l: nat)
    requires k < l < |Emitters(chunks)|
    ensures Emitters(chunks)[k] < Emitters(chunks)[l]
    decreases |chunks|
  {
    var init := chunks[..|chunks| - 1];
    if l < |Emitters(init)| {
      EmittersIncreasing(init, k, l);
    }
  }

  /** Every chunk that converts to a message is selected. */
  lemma {:induction false} EmittersComplete(chunks: seq<Chunk>, i: nat)
    requires i < |chunks| && ConvertChunk(chunks[i]).Some?
    ensures i in Emitters(chunks)
    decreases |chunks|
  {
    var init := chunks[..|chunks| - 1];
    if i < |chunks| - 1 {
      assert init[i] == chunks[i];
      EmittersComplete(init, i);
    }
  }

  /** `out` is the selection of `chunks` at the strictly increasing positions
      `idx`: message k is what chunk idx[k] converts to, and every chunk that
      converts to a message is selected. */
  ghost predicate OrderedSelection(chunks: seq<Chunk>, out: seq<Message>, idx: seq<nat>) {
    && |idx| == |out|
    && (forall k :: 0 <= k < |idx| ==> idx[k] < |chunks| && ConvertChunk(chunks[idx[k]]) == Some(out[k]))
    && (forall k, l :: 0 <= k < l < |idx| ==> idx[k] < idx[l])
    && (forall i :: 0 <= i < |chunks| && ConvertChunk(chunks[i]).Some? ==> i in idx)
  }

  /** The output is an order-preserving subsequence of the chunks: each message
      comes from exactly one chunk, no chunk that has a message is skipped, and
      nothing is reordered. */
  lemma ConvertIsOrderedSelection(chunks: seq<Chunk>)
    ensures OrderedSelection(chunks, ConvertChunks(chunks), Emitters(chunks))
  {
    EmittersLength(chunks);
    forall k | 0 <= k < |Emitters(chunks)|
      ensures ConvertChunk(chunks[Emitters(chunks)[k]]) == Some(ConvertChunks(chunks)[k])
    {
      EmittersMatch(chunks, k);
    }
    forall k, l | 0 <= k < l < |Emitters(chunks)|
      ensures Emitters(chunks)[k] < Emitters(chunks)[l]
    {
      EmittersIncreasing(chunks, k, l);
    }
    forall i | 0 <= i < |chunks| && ConvertChunk(chunks[i]).Some?
      ensures i in Emitters(chunks)
    {
      EmittersComplete(chunks, i);
    }
  }

  /** No message ever comes from a thought chunk, and the chunk a message
      comes from gives it its role and its one block's text. */
  lemma MessageSources(chunks: seq<Chunk>, k: nat)
    requires k < |ConvertChunks(chunks)|
    ensures k < |Emitters(chunks)|
    ensures var i := Emitters(chunks)[k];
      && !chunks[i].isThought
      && ConvertChunks(chunks)[k].role == MapRole(chunks[i].role)
      && ConvertChunks(chunks)[k].content == [ContentBlock(TextType, ChunkText(chunks[i]))]
  {
    ConvertIsOrderedSelection(chunks);
  }

  /** A thought chunk is never among the selected positions. */
  lemma ThoughtChunkNotSelected(chunks: seq<Chunk>, i: nat)
    requires i < |chunks| && chunks[i].isThought
    ensures i !in Emitters(chunks)
  {
    ConvertIsOrderedSelection(chunks);
  }

  // ---------------------------------------------------------------------------
  // Document level
  // ---------------------------------------------------------------------------

  /** The user turn of the example below converts on its own. */
  lemma UserTurnExample()
    ensures ConvertChunk(Chunk(false, Some("user"), Some([Annotated(Some("Hi"), false)]), None))
            == Some(Message("user", [ContentBlock("text", "Hi")]))
  {
    var hi := Chunk(false, Some("user"), Some([Annotated(Some("Hi"), false)]), None);
    assert [Annotated(Some("Hi"), false)][..0] == [];
    assert ChunkText(hi) == "Hi";
    assert !IsWhitespace(ChunkText(hi)[0]);
  }

  /** The model turn of the example below: its thought part is dropped. */
  lemma ModelTurnExample()
    ensures ConvertChunk(Chunk(false, Some("model"), Some([Annotated(Some("Hello"), false),
                                                           Annotated(Some(" there"), true)]), None))
            == Some(Message("assistant", [ContentBlock("text", "Hello")]))
  {
    var ps := [Annotated(Some("Hello"), false), Annotated(Some(" there"), true)];
    var hello := Chunk(false, Some("model"), Some(ps), None);
    assert ps[..1] == [Annotated(Some("Hello"), false)];
    assert ps[..1][..0] == [];
    assert PartsText(ps[..1]) == "Hello";
    assert PartText(ps[1]) == "";
    assert ChunkText(hello) == "Hello" + "";
    assert !IsWhitespace(ChunkText(hello)[0]);
  }

  /** A two-turn exchange: a user "Hi", and a model reply whose second part is
      a thought, so only "Hello" survives, under the role "assistant". */
  lemma TwoTurnExample()
    ensures ConvertDocument(Document(Some(ChunkedPrompt(Some([
              Chunk(false, Some("user"), Some([Annotated(Some("Hi"), false)]), None),
              Chunk(false, Some("model"), Some([Annotated(Some("Hello"), false),
                                                Annotated(Some(" there"), true)]), None)])))))
            == [Message("user", [ContentBlock("text", "Hi")]),
                Message("assistant", [ContentBlock("text", "Hello")])]
  {
    UserTurnExample();
    ModelTurnExample();
    TwoChunks(Chunk(false, Some("user"), Some([Annotated(Some("Hi"), false)]), None),
              Chunk(false, Some("model"), Some([Annotated(Some("Hello"), false),
                                                Annotated(Some(" there"), true)]), None));
  }
}
