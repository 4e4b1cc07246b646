/**
 * obyde/rewriting/highlight.py: `ObsidianHighlightRewritingTransformer`, whose
 * three operations all answer `None`, and the engine `process_vault` builds
 * from it.
 */
module Highlight {
  import opened Wrappers
  import opened Parsing
  import opened Rewriting

  /** Content blocks are returned unmodified as well: no highlighting is performed. */
  function TransformNormalBlock(block: string): Option<string> {
    None
  }

  /** Preformatted blocks are never modified. */
  function TransformPreformattedBlock(block: string): Option<string> {
    None
  }

  /** The metadata section is never modified. */
  function TransformMetadataSection(metadata: string): Option<string> {
    None
  }

  /** `ObsidianHighlightRewritingTransformer()`: a concrete transformer made of the three operations above. */
  function ObsidianHighlightRewritingTransformer(): Transformer {
    Concrete(TransformNormalBlock, TransformPreformattedBlock, TransformMetadataSection)
  }

  /** The highlighter leaves every input alone, for all three operations. */
  lemma HighlighterChangesNothing()
    ensures ChangesNothing(ObsidianHighlightRewritingTransformer())
    ensures forall op, s :: Apply(ObsidianHighlightRewritingTransformer(), op, s) == None
  {
  }

  /**
   * The inputs of the highlighter's unit tests that expect no change: a
   * preformatted block and a metadata section containing `==`, and a content
   * block without any.
   */
  lemma HighlighterTestInputs()
    ensures TransformPreformattedBlock("if a == b and b == c:\n\tpass") == None
    ensures TransformMetadataSection("---\ndate: 2021-08-21\ntitle: \"== title ==\"") == None
    ensures TransformNormalBlock("This is a normal content block with no highlighted text.") == None
  {
  }

  /** `RewritingPipeline([ObsidianHighlightRewritingTransformer()])`, as `process_vault` builds it. */
  const VaultPipeline: Transformer := Pipeline([ObsidianHighlightRewritingTransformer()])

  /**
   * The engine `process_vault` uses returns every post's metadata unchanged and
   * writes its blocks back as they were.
   */
  lemma VaultEngineKeepsPosts(metadata: string, blocks: seq<ContentBlock>)
    ensures Rewritten(VaultPipeline, metadata, blocks) == (metadata, Reassembled(blocks))
  {
    forall op: Operation, s: string
      ensures Apply(VaultPipeline, op, s) == Some(s)
    {
      NoChangeKeepsInput(VaultPipeline, op, s, 1);
    }
    UnchangingEngineReassembles(VaultPipeline, metadata, blocks);
  }
}
