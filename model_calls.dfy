/**
  The language model seen from the pipelines.  A chain is a prompt template
  piped into the model and a string output parser; the model itself is an
  oracle: a fixed sequence of replies, one per call, consumed in order.
 */
module ModelCalls {

  /** What one call of the model gives back: a completion, or an error
      (network, throttling, a rejected request). */
  datatype Completion = Reply(text: string) | CallError

  /** Call number `pos` of a run (counting every call of every chain from
      0) is answered by `oracle[pos]`; calls past the end fail. */
  type Oracle = seq<Completion>

  function ReplyAt(oracle: Oracle, pos: nat): Completion {
    if pos < |oracle| then oracle[pos] else CallError
  }

  /** A prompt template, given by the names of the variables it
      interpolates (its wording is left out). */
  type Template = set<string>

  /** What invoking a chain produces: the completion text, a failed model
      call, or the error a prompt template raises, before any model call,
      when some of its variables are not supplied. */
  datatype ChainOutput = Text(text: string) | ModelFailed | MissingVariables(names: set<string>)

  /** `(template | llm | StrOutputParser()).invoke(inputs)` as call number
      `pos`, where `supplied` is the set of keys of `inputs`: the model is
      called (and the oracle advanced) exactly when the inputs supply every
      variable of the template. */
  function Invoke(template: Template, supplied: set<string>, oracle: Oracle, pos: nat): (r: (ChainOutput, nat))
    ensures r.1 == pos + 1 <==> template <= supplied
    ensures r.1 == pos <==> !(template <= supplied)
    ensures r.0.MissingVariables? <==> !(template <= supplied)
    ensures r.0.MissingVariables? ==> r.0.names == template - supplied && r.0.names != {}
    ensures r.0.Text? <==> template <= supplied && ReplyAt(oracle, pos).Reply?
    ensures r.0.Text? ==> r.0.text == ReplyAt(oracle, pos).text
  {
    if !(template <= supplied) then
      var absent :| absent in template && absent !in supplied;
      assert absent in template - supplied;
      (MissingVariables(template - supplied), pos)
    else match ReplyAt(oracle, pos)
      case Reply(text) => (Text(text), pos + 1)
      case CallError => (ModelFailed, pos + 1)
  }
}
