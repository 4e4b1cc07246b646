/**
 * obyde/rewriting/model.py (and its duplicate obyde/rewriting.py): transformers,
 * the pipeline that combines them, and the engine that applies a transformer to
 * a post's metadata and content blocks.
 */
module Rewriting {
  import opened Wrappers
  import opened Parsing

  /** The three operations of a `RewritingTransformer`. */
  datatype Operation = NormalBlock | PreformattedBlock | MetadataSection

  /**
   * A `RewritingTransformer`: either one given by its three operations, each
   * answering a rewritten string or `None` for "no change", or a
   * `RewritingPipeline` over a list of phases.
   */
  datatype Transformer =
    | Concrete(normalBlock: string -> Option<string>,
               preformattedBlock: string -> Option<string>,
               metadataSection: string -> Option<string>)
    | Pipeline(phases: seq<Transformer>)

  /** What the transformer answers for operation `op` on `block`; a pipeline always answers. */
  function Apply(t: Transformer, op: Operation, block: string): (r: Option<string>)
    ensures t.Pipeline? ==> r.Some?
    decreases t, if t.Pipeline? then |t.phases| + 1 else 0
  {
    match t
    case Concrete(normalBlock, preformattedBlock, metadataSection) =>
      (match op
       case NormalBlock => normalBlock(block)
       case PreformattedBlock => preformattedBlock(block)
       case MetadataSection => metadataSection(block))
    case Pipeline(phases) => Some(Iterated(t, op, block, |phases|))
  }

  /**
   * `__process_str_transform_iterated` over the first `n` phases of pipeline `t`:
   * every phase is given the original `block`, and the answer of the last phase
   * that does not answer `None` is kept; with no such phase, `block` itself.
   */
  function Iterated(t: Transformer, op: Operation, block: string, n: nat): string
    requires t.Pipeline? && n <= |t.phases|
    decreases t, n
  {
    if n == 0 then block
    else
      assert t.phases[n - 1] in t.phases;
      match Apply(t.phases[n - 1], op, block)
      case Some(transformed) => transformed
      case None => Iterated(t, op, block, n - 1)
  }

  /** Calling operation `op` of transformer `t` on `block`. */
  method Transform(t: Transformer, op: Operation, block: string) returns (r: Option<string>)
    ensures r == Apply(t, op, block)
    decreases t, if t.Pipeline? then |t.phases| + 1 else 0
  {
    match t
    case Concrete(normalBlock, preformattedBlock, metadataSection) =>
      match op {
        case NormalBlock => r := normalBlock(block);
        case PreformattedBlock => r := preformattedBlock(block);
        case MetadataSection => r := metadataSection(block);
      }
    case Pipeline(phases) =>
      var transformed := ProcessStrTransformIterated(t, op, block);
      r := Some(transformed);
  }

  /** `RewritingPipeline.__process_str_transform_iterated`: the source's loop over the phases. */
  method ProcessStrTransformIterated(t: Transformer, op: Operation, block: string) returns (current: string)
    requires t.Pipeline?
    ensures current == Iterated(t, op, block, |t.phases|)
    decreases t, |t.phases|
  {
    current := block;
    for i := 0 to |t.phases|
      invariant current == Iterated(t, op, block, i)
    {
      assert t.phases[i] in t.phases;
      var transformed := Transform(t.phases[i], op, block);
      if transformed.Some? {
        current := transformed.value;
      }
    }
  }

  /** A pipeline without phases answers its input unchanged, for every operation. */
  lemma EmptyPipelineIsIdentity(op: Operation, block: string)
    ensures Apply(Pipeline([]), op, block) == Some(block)
  {
  }

  /**
   * When phase `j` answers and no later phase does, the pipeline answers what
   * phase `j` answered: the last change wins, and earlier answers are discarded.
   */
  lemma {:induction false} LastChangeWins(t: Transformer, op: Operation, block: string, n: nat, j: nat)
    requires t.Pipeline? && j < n <= |t.phases|
    requires Apply(t.phases[j], op, block).Some?
    requires forall k :: j < k < n ==> Apply(t.phases[k], op, block).None?
    ensures Iterated(t, op, block, n) == Apply(t.phases[j], op, block).value
    decreases n
  {
    if j < n - 1 {
      LastChangeWins(t, op, block, n - 1, j);
    }
  }

  /** When no phase answers, the pipeline answers its input unchanged. */
  lemma {:induction false} NoChangeKeepsInput(t: Transformer, op: Operation, block: string, n: nat)
    requires t.Pipeline? && n <= |t.phases|
    requires forall k :: 0 <= k < n ==> Apply(t.phases[k], op, block).None?
    ensures Iterated(t, op, block, n) == block
    decreases n
  {
    if n > 0 {
      NoChangeKeepsInput(t, op, block, n - 1);
    }
  }

  /**
   * A pipeline's answer for `op` depends only on what its phases answer for the
   * same operation `op` on the same input: two pipelines whose phases agree on
   * that operation agree, whatever their phases do for the other operations.
   */
  lemma {:induction false} DispatchesToSameOperation(t: Transformer, u: Transformer, op: Operation, block: string, n: nat)
    requires t.Pipeline? && u.Pipeline? && n <= |t.phases| && n <= |u.phases|
    requires forall k :: 0 <= k < n ==> Apply(t.phases[k], op, block) == Apply(u.phases[k], op, block)
    ensures Iterated(t, op, block, n) == Iterated(u, op, block, n)
    decreases n
  {
    if n > 0 {
      DispatchesToSameOperation(t, u, op, block, n - 1);
    }
  }

  /**
   * Phases are not chained: of two phases that each append a letter, only the
   * last one's answer survives, and it is computed from the original input.
   */
  lemma PhasesSeeOriginalInput(a: Transformer, b: Transformer, block: string)
    requires a.Concrete? && b.Concrete?
    requires forall s :: a.normalBlock(s) == Some(s + "a")
    requires forall s :: b.normalBlock(s) == Some(s + "b")
    ensures Apply(Pipeline([a, b]), NormalBlock, block) == Some(block + "b")
  {
    LastChangeWins(Pipeline([a, b]), NormalBlock, block, 2, 1);
  }

  // ---------------------------------------------------------------------------
  // RewritingEngine
  // ---------------------------------------------------------------------------

  /** Python's `transformed or original` on an optional string: `None` and `""` both fall back. */
  function OrFallback(transformed: Option<string>, original: string): (r: string)
    ensures r == original || (transformed == Some(r) && r != "")
    ensures transformed.Some? && transformed.value != "" ==> r == transformed.value
  {
    if transformed.Some? && transformed.value != "" then transformed.value else original
  }

  /** `"`" * k`: `k` backticks, none when `k` is zero or negative. */
  function Ticks(k: int): (r: string)
    ensures |r| == if k > 0 then k else 0
    ensures forall i :: 0 <= i < |r| ==> r[i] == '`'
  {
    if k <= 0 then "" else Ticks(k - 1) + "`"
  }

  /** What the engine writes for one block: the transformed content, a preformatted one between its ticks. */
  function RenderBlock(t: Transformer, block: ContentBlock): string {
    match block
    case PreformattedContentBlock(content, wrappingTickCount) =>
      Ticks(wrappingTickCount) + OrFallback(Apply(t, PreformattedBlock, content), content) + Ticks(wrappingTickCount)
    case ContentBlock(content) =>
      OrFallback(Apply(t, NormalBlock, content), content)
  }

  /** The strings `write` is called with, one per block, joined in order with no separators. */
  function ConcatMap(render: ContentBlock -> string, blocks: seq<ContentBlock>): string {
    if |blocks| == 0 then "" else ConcatMap(render, blocks[..|blocks| - 1]) + render(blocks[|blocks| - 1])
  }

  /** `RenderBlock` for transformer `t`, as a function of the block alone. */
  function Renderer(t: Transformer): ContentBlock -> string {
    block => RenderBlock(t, block)
  }

  /** The engine's output for `blocks`: the rendered blocks in order, with no separators. */
  function RenderBlocks(t: Transformer, blocks: seq<ContentBlock>): string {
    ConcatMap(Renderer(t), blocks)
  }

  /** The pair `RewritingEngine.rewrite` returns. */
  function Rewritten(t: Transformer, metadata: string, blocks: seq<ContentBlock>): (string, string) {
    (OrFallback(Apply(t, MetadataSection, metadata), metadata), RenderBlocks(t, blocks))
  }

  /** `RewritingEngine`: holds the transformer it applies. */
  class RewritingEngine {
    const transformer: Transformer

    constructor(transformer: Transformer)
      ensures this.transformer == transformer
    {
      this.transformer := transformer;
    }

    /**
     * `rewrite`: the metadata as transformed (or unchanged when the transformer
     * answers `None` or `""`), and the blocks written one after the other.
     */
    method Rewrite(metadata: string, blocks: seq<ContentBlock>) returns (newMetadata: string, body: string)
      ensures (newMetadata, body) == Rewritten(transformer, metadata, blocks)
    {
      var transformed := Transform(transformer, MetadataSection, metadata);
      newMetadata := OrFallback(transformed, metadata);
      body := "";
      for i := 0 to |blocks|
        invariant body == RenderBlocks(transformer, blocks[..i])
      {
        assert blocks[..i + 1][..i] == blocks[..i];
        match blocks[i]
        case PreformattedContentBlock(content, wrappingTickCount) =>
          var answer := Transform(transformer, PreformattedBlock, content);
          var text := OrFallback(answer, content);
          var ticks := Ticks(wrappingTickCount);
          body := body + ticks;
          body := body + text;
          body := body + ticks;
        case ContentBlock(content) =>
          var answer := Transform(transformer, NormalBlock, content);
          var text := OrFallback(answer, content);
          body := body + text;
      }
      assert blocks[..|blocks|] == blocks;
    }
  }

  /** Joining the strings of two block lists is joining the strings of each. */
  lemma {:induction false} ConcatMapAppend(render: ContentBlock -> string, xs: seq<ContentBlock>, ys: seq<ContentBlock>)
    ensures ConcatMap(render, xs + ys) == ConcatMap(render, xs) + ConcatMap(render, ys)
    decreases |ys|
  {
    if |ys| == 0 {
      assert xs + ys == xs;
    } else {
      var init, last := ys[..|ys| - 1], ys[|ys| - 1];
      ConcatMapAppend(render, xs, init);
      var all := xs + ys;
      assert all[..|all| - 1] == xs + init;
      assert all[|all| - 1] == last;
      assert ConcatMap(render, all) == ConcatMap(render, xs + init) + render(last);
      assert ConcatMap(render, ys) == ConcatMap(render, init) + render(last);
    }
  }

  /** The output for a concatenation of block lists is the concatenation of the outputs. */
  lemma RenderBlocksAppend(t: Transformer, xs: seq<ContentBlock>, ys: seq<ContentBlock>)
    ensures RenderBlocks(t, xs + ys) == RenderBlocks(t, xs) + RenderBlocks(t, ys)
  {
    ConcatMapAppend(Renderer(t), xs, ys);
  }

  /** One block written back exactly as it was read: a preformatted one re-wrapped in its ticks. */
  function Written(block: ContentBlock): string {
    match block
    case PreformattedContentBlock(content, wrappingTickCount) => Ticks(wrappingTickCount) + content + Ticks(wrappingTickCount)
    case ContentBlock(content) => content
  }

  /** The blocks written back exactly as they were read, first to last. */
  function Reassembled(blocks: seq<ContentBlock>): string {
    if |blocks| == 0 then "" else Written(blocks[0]) + Reassembled(blocks[1..])
  }

  /** The transformer changes nothing, for any operation and any input. */
  ghost predicate ChangesNothing(t: Transformer) {
    forall op, s :: Apply(t, op, s) == None || Apply(t, op, s) == Some(s) || Apply(t, op, s) == Some("")
  }

  /** A transformer that changes nothing writes a block back as it was read. */
  lemma UnchangedBlock(t: Transformer, block: ContentBlock)
    requires ChangesNothing(t)
    ensures RenderBlock(t, block) == Written(block)
  {
    var op := if block.PreformattedContentBlock? then PreformattedBlock else NormalBlock;
    assert Apply(t, op, block.content) == None || Apply(t, op, block.content) == Some(block.content) || Apply(t, op, block.content) == Some("");
  }

  /**
   * An engine whose transformer changes nothing returns the metadata unchanged
   * and writes the blocks back as they were.
   */
  lemma UnchangingEngineReassembles(t: Transformer, metadata: string, blocks: seq<ContentBlock>)
    requires ChangesNothing(t)
    ensures Rewritten(t, metadata, blocks) == (metadata, Reassembled(blocks))
  {
    assert Apply(t, MetadataSection, metadata) == None || Apply(t, MetadataSection, metadata) == Some(metadata) || Apply(t, MetadataSection, metadata) == Some("");
    UnchangedBlocks(t, blocks);
  }

  lemma {:induction false} UnchangedBlocks(t: Transformer, blocks: seq<ContentBlock>)
    requires ChangesNothing(t)
    ensures RenderBlocks(t, blocks) == Reassembled(blocks)
    decreases |blocks|
  {
    if |blocks| > 0 {
      var first, rest := blocks[0], blocks[1..];
      assert RenderBlocks(t, [first]) == Written(first) by {
        assert [first][..0] == [];
        var one := Renderer(t)(first);
        assert ConcatMap(Renderer(t), [first]) == ConcatMap(Renderer(t), []) + one;
        assert ConcatMap(Renderer(t), []) + one == one;
        UnchangedBlock(t, first);
      }
      assert RenderBlocks(t, blocks) == RenderBlocks(t, [first]) + RenderBlocks(t, rest) by {
        assert [first] + rest == blocks;
        RenderBlocksAppend(t, [first], rest);
      }
      UnchangedBlocks(t, rest);
      assert Reassembled(blocks) == Written(first) + Reassembled(rest);
    }
  }
}
