/**
  The shapes of the calls the query helpers hand to an Exograph instance:
  which entry point is called, and with how many and which arguments. An
  optional JavaScript argument is either left out (`undefined`), `null`, or
  a value.
 */
module Transport {

  /** An optional argument as JavaScript sees it. */
  datatype Arg<+T> = Undefined | Null | Value(v: T)

  /** `a === undefined`: only a missing argument. */
  predicate StrictlyUndefined<T>(a: Arg<T>)
  {
    a.Undefined?
  }

  /** `a == undefined`: a missing argument or `null`. */
  predicate LooselyUndefined<T>(a: Arg<T>)
  {
    a.Undefined? || a.Null?
  }

  /** The two entry points of an Exograph instance: `executeQuery` and `executeQueryPriv`. */
  datatype Endpoint = ExographQuery | ExographQueryPriv

  /** The arguments of one call: the operation text, then optionally variables and a context override. */
  datatype Args<+V, +C> =
    | Op(op: string)
    | OpVars(op: string, vars: Arg<V>)
    | OpVarsContext(op: string, vars: Arg<V>, context: Arg<C>)

  /** Exactly one call to one entry point. */
  datatype Call<+V, +C> = Call(endpoint: Endpoint, args: Args<V, C>)

  /**
    What the callee receives as its optional parameters: a parameter the
    call does not pass is `undefined` inside the callee.
   */
  function Received<V, C>(args: Args<V, C>): (Arg<V>, Arg<C>)
  {
    match args
    case Op(_) => (Undefined, Undefined)
    case OpVars(_, vars) => (vars, Undefined)
    case OpVarsContext(_, vars, context) => (vars, context)
  }
}
