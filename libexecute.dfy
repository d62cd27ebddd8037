/**
  The query helpers of lib/execute.ts: they take a typed document string (a
  `String` object carrying the operation text), assert that it is one, and
  forward its text together with whichever optional arguments were
  supplied to one Exograph entry point.
 */
module LibExecute {
  import opened Wrappers
  import opened Transport
  import ModExecute

  /** The runtime value passed as the document. */
  datatype Document =
    | StringObject(text: string)      // an instance of `String`, such as a typed document string
    | PrimitiveString(text: string)   // a plain string: not an instance of `String`
    | OtherValue                      // any other value

  const InstanceMessage: string := "Expected TypeDocumentString"

  /** `assertInstanceOf(doc, String, ...)` followed by `doc.toString()`. */
  function OperationText(doc: Document): (r: Result<string, Error>)
    ensures r.Success? <==> doc.StringObject?
    ensures r.Failure? ==> r.error == AssertionError(InstanceMessage)
    ensures r.Success? ==> r.value == doc.text
  {
    if doc.StringObject? then Success(doc.text) else Failure(AssertionError(InstanceMessage))
  }

  /**
    `executeQueryPriv`: the arguments are tested with `===`; every supplied
    argument is forwarded, a context override without variables along with
    an explicit `undefined` in the variables' place.
   */
  function ExecuteQueryPriv<V, C>(doc: Document, vars: Arg<V>, contextOverride: Arg<C>): (r: Result<Call<V, C>, Error>)
    ensures r.Failure? <==> !doc.StringObject?
    ensures r.Failure? ==> r.error == AssertionError(InstanceMessage)
    ensures r.Success? ==> r.value.endpoint == ExographQueryPriv && r.value.args.op == doc.text
    ensures r.Success? ==> Received(r.value.args) == (vars, contextOverride)
  {
    match OperationText(doc)
    case Failure(e) => Failure(e)
    case Success(op) =>
      if StrictlyUndefined(vars) then
        if !StrictlyUndefined(contextOverride) then Success(Call(ExographQueryPriv, OpVarsContext(op, Undefined, contextOverride)))
        else Success(Call(ExographQueryPriv, Op(op)))
      else if StrictlyUndefined(contextOverride) then Success(Call(ExographQueryPriv, OpVars(op, vars)))
      else Success(Call(ExographQueryPriv, OpVarsContext(op, vars, contextOverride)))
  }

  /**
    `executeQuery`: the variables are tested with `==`, so `null` counts as
    missing and is not forwarded.
   */
  function ExecuteQuery<V, C>(doc: Document, vars: Arg<V>): (r: Result<Call<V, C>, Error>)
    ensures r.Failure? <==> !doc.StringObject?
    ensures r.Failure? ==> r.error == AssertionError(InstanceMessage)
    ensures r.Success? ==> r.value.endpoint == ExographQuery && r.value.args.op == doc.text
    ensures r.Success? ==> !r.value.args.OpVarsContext?
    ensures r.Success? ==>
      Received(r.value.args) == (if LooselyUndefined(vars) then Undefined else vars, Undefined)
  {
    match OperationText(doc)
    case Failure(e) => Failure(e)
    case Success(op) =>
      if LooselyUndefined(vars) then Success(Call(ExographQuery, Op(op)))
      else Success(Call(ExographQuery, OpVars(op, vars)))
  }

  /** The four cases of `executeQueryPriv`, one call each. */
  lemma PrivCases<V, C>(text: string, vars: Arg<V>, contextOverride: Arg<C>)
    ensures var r := ExecuteQueryPriv(StringObject(text), vars, contextOverride);
      r.Success? &&
      (vars.Undefined? && contextOverride.Undefined? ==> r.value.args == Op(text)) &&
      (vars.Undefined? && !contextOverride.Undefined? ==> r.value.args == OpVarsContext(text, Undefined, contextOverride)) &&
      (!vars.Undefined? && contextOverride.Undefined? ==> r.value.args == OpVars(text, vars)) &&
      (!vars.Undefined? && !contextOverride.Undefined? ==> r.value.args == OpVarsContext(text, vars, contextOverride))
  {
  }

  /** `null` variables are forwarded by `executeQueryPriv` and dropped by `executeQuery`. */
  lemma NullVarsRouting<V, C>(text: string)
    ensures ExecuteQueryPriv<V, C>(StringObject(text), Null, Undefined).value.args == OpVars(text, Null)
    ensures ExecuteQuery<V, C>(StringObject(text), Null).value.args == Op(text)
  {
  }

  /**
    Against the helpers of mod.ts, given a document carrying the same text:
    `executeQuery` calls alike, and `executeQueryPriv` calls alike except
    when a context override comes without variables.
   */
  lemma AgreesWithModHelpers<V, C>(text: string, vars: Arg<V>, contextOverride: Arg<C>)
    ensures var node := ModExecute.DocumentNode(Some(ModExecute.Location(text)));
      ExecuteQuery<V, C>(StringObject(text), vars) == ModExecute.ExecuteQuery<V, C>(node, vars)
    ensures var node := ModExecute.DocumentNode(Some(ModExecute.Location(text)));
      (ExecuteQueryPriv(StringObject(text), vars, contextOverride) == ModExecute.ExecuteQueryPriv(node, vars, contextOverride)
       <==> !(vars.Undefined? && !contextOverride.Undefined?))
    ensures var node := ModExecute.DocumentNode(Some(ModExecute.Location(text)));
      ExecuteQueryPriv(StringObject(text), vars, contextOverride) == ModExecute.ExecuteQueryPrivForwarding(node, vars, contextOverride)
  {
  }
}
