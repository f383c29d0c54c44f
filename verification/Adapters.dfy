/** app/adapters/base.py: the canonical citation every adapter maps its provider's payload to. */
module Adapters {
  import opened Options

  datatype Citation = Citation(
    sourceUrl: Option<string>,
    sourceTitle: Option<string>,
    sourceDomain: Option<string>,
    position: nat,
    citedAnswerSpan: Option<string>,
    answerSpanStart: Option<int>,
    answerSpanEnd: Option<int>,
    sourcePassage: Option<string>)
}
