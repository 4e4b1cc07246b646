/**
 * obyde/parsing.py: the content blocks the rewriting engine consumes. The
 * segmenter `parse_content_blocks` is not part of this model (see README).
 */
module Parsing {
  /**
   * `ContentBlock` and its subclass `PreformattedContentBlock`: a plain block, or
   * a preformatted one that was wrapped in `wrappingTickCount` backticks.
   */
  datatype ContentBlock =
    | ContentBlock(content: string)
    | PreformattedContentBlock(content: string, wrappingTickCount: int)
}
