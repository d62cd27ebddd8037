/**
  The query helpers of mod.ts: they take a parsed GraphQL document, read
  its source text through `doc.loc!.source.body`, and forward it together
  with whichever optional arguments were supplied to one Exograph entry
  point.
 */
module ModExecute {
  import opened Wrappers
  import opened Transport

  /** Where a parsed document came from: the text of its source. */
  datatype Location = Location(body: string)

  /** A parsed document; a document built by hand may lack its location. */
  datatype DocumentNode = DocumentNode(loc: Option<Location>)

  /** `doc.loc!.source.body`: the non-null assertion is not checked, the property read throws. */
  function Body(doc: DocumentNode): (r: Result<string, Error>)
    ensures r.Success? <==> doc.loc.Some?
    ensures r.Failure? ==> r.error == TypeError
    ensures r.Success? ==> r.value == doc.loc.value.body
  {
    match doc.loc
    case None => Failure(TypeError)
    case Some(location) => Success(location.body)
  }

  /**
    `executeQueryPriv`: the arguments are tested with `===`. Without
    variables the call carries the text alone, so a context override given
    with `undefined` variables is not forwarded.
   */
  function ExecuteQueryPriv<V, C>(doc: DocumentNode, vars: Arg<V>, contextOverride: Arg<C>): (r: Result<Call<V, C>, Error>)
    ensures r.Failure? <==> doc.loc.None?
    ensures r.Failure? ==> r.error == TypeError
    ensures r.Success? ==> r.value.endpoint == ExographQueryPriv && r.value.args.op == doc.loc.value.body
    ensures r.Success? && StrictlyUndefined(vars) ==> r.value.args.Op?
    ensures r.Success? ==>
      (Received(r.value.args) == (vars, contextOverride) <==>
       !(StrictlyUndefined(vars) && !StrictlyUndefined(contextOverride)))
  {
    match Body(doc)
    case Failure(e) => Failure(e)
    case Success(body) =>
      if StrictlyUndefined(vars) then Success(Call(ExographQueryPriv, Op(body)))
      else if StrictlyUndefined(contextOverride) then Success(Call(ExographQueryPriv, OpVars(body, vars)))
      else Success(Call(ExographQueryPriv, OpVarsContext(body, vars, contextOverride)))
  }

  /**
    `executeQuery`: the variables are tested with `==`, so `null` counts as
    missing and is not forwarded.
   */
  function ExecuteQuery<V, C>(doc: DocumentNode, vars: Arg<V>): (r: Result<Call<V, C>, Error>)
    ensures r.Failure? <==> doc.loc.None?
    ensures r.Failure? ==> r.error == TypeError
    ensures r.Success? ==> r.value.endpoint == ExographQuery && r.value.args.op == doc.loc.value.body
    ensures r.Success? ==> !r.value.args.OpVarsContext?
    ensures r.Success? ==>
      Received(r.value.args) == (if LooselyUndefined(vars) then Undefined else vars, Undefined)
  {
    match Body(doc)
    case Failure(e) => Failure(e)
    case Success(body) =>
      if LooselyUndefined(vars) then Success(Call(ExographQuery, Op(body)))
      else Success(Call(ExographQuery, OpVars(body, vars)))
  }

  /** The three cases of `executeQueryPriv`, one call each. */
  lemma PrivCases<V, C>(body: string, vars: Arg<V>, contextOverride: Arg<C>)
    ensures var r := ExecuteQueryPriv(DocumentNode(Some(Location(body))), vars, contextOverride);
      r.Success? &&
      (vars.Undefined? ==> r.value.args == Op(body)) &&
      (!vars.Undefined? && contextOverride.Undefined? ==> r.value.args == OpVars(body, vars)) &&
      (!vars.Undefined? && !contextOverride.Undefined? ==> r.value.args == OpVarsContext(body, vars, contextOverride))
  {
  }

  /** `null` variables are forwarded by `executeQueryPriv` and dropped by `executeQuery`. */
  lemma NullVarsRouting<V, C>(doc: DocumentNode)
    requires doc.loc.Some?
    ensures ExecuteQueryPriv<V, C>(doc, Null, Undefined).value.args == OpVars(doc.loc.value.body, Null)
    ensures ExecuteQuery<V, C>(doc, Null).value.args == Op(doc.loc.value.body)
  {
  }

  /**
    Without a context override the two helpers pass the same arguments,
    exactly when the variables are not `null`.
   */
  lemma QueryAgreesWithPriv<V, C>(doc: DocumentNode, vars: Arg<V>)
    requires doc.loc.Some?
    ensures ExecuteQuery<V, C>(doc, vars).value.args == ExecuteQueryPriv<V, C>(doc, vars, Undefined).value.args
      <==> !vars.Null?
  {
  }

  /** As written: a context override given without variables never reaches the callee. */
  lemma PrivDropsContext<V, C>(doc: DocumentNode, context: C)
    requires doc.loc.Some?
    ensures ExecuteQueryPriv<V, C>(doc, Undefined, Value(context)).value.args == Op(doc.loc.value.body)
    ensures Received(ExecuteQueryPriv<V, C>(doc, Undefined, Value(context)).value.args).1 == Undefined
  {
  }

  /**
    `executeQueryPriv` as evidently intended (the four-case table of the
    helper in lib/execute.ts): the callee receives exactly what was given.
   */
  function ExecuteQueryPrivForwarding<V, C>(doc: DocumentNode, vars: Arg<V>, contextOverride: Arg<C>): (r: Result<Call<V, C>, Error>)
    ensures r.Failure? <==> doc.loc.None?
    ensures r.Failure? ==> r.error == TypeError
    ensures r.Success? ==> r.value.endpoint == ExographQueryPriv && r.value.args.op == doc.loc.value.body
    ensures r.Success? ==> Received(r.value.args) == (vars, contextOverride)
  {
    match Body(doc)
    case Failure(e) => Failure(e)
    case Success(body) =>
      if StrictlyUndefined(vars) then
        if !StrictlyUndefined(contextOverride) then Success(Call(ExographQueryPriv, OpVarsContext(body, Undefined, contextOverride)))
        else Success(Call(ExographQueryPriv, Op(body)))
      else if StrictlyUndefined(contextOverride) then Success(Call(ExographQueryPriv, OpVars(body, vars)))
      else Success(Call(ExographQueryPriv, OpVarsContext(body, vars, contextOverride)))
  }

  /** The two differ exactly where the written helper drops the context override. */
  lemma ForwardingDiffersOnlyWithoutVars<V, C>(doc: DocumentNode, vars: Arg<V>, contextOverride: Arg<C>)
    ensures ExecuteQueryPrivForwarding(doc, vars, contextOverride) == ExecuteQueryPriv(doc, vars, contextOverride)
      <==> doc.loc.None? || !(vars.Undefined? && !contextOverride.Undefined?)
  {
  }
}
