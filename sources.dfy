/**
  Collection of the operations and fragments embedded in scanned source
  files (`processSources`, `fixLinebreaks` and the name-deriving callback of
  codegen.ts). A GraphQL document holds executable definitions of two kinds
  (sections 2.3 and 2.8 of the GraphQL specification, October 2021):
  operations and fragments; only named ones are collected.
 */
module Sources {
  import opened Wrappers
  import opened Text

  /** The `kind` tag of a top-level definition node. */
  datatype Kind = OperationDefinition | FragmentDefinition | OtherDefinition

  /** A top-level definition: its kind and its optional `Name` node's value. */
  datatype Definition = Definition(kind: Kind, name: Option<string>)

  /** A scanned source (`Source` of graphql-tools): raw text, parsed document, path. */
  datatype Source = Source(rawSDL: Option<string>, document: Option<seq<Definition>>, location: Option<string>)

  /** One collected definition with the name derived for it. */
  datatype OperationOrFragment = OperationOrFragment(initialName: string, definition: Definition)

  /** A source together with the definitions collected from it. */
  datatype SourceWithOperations = SourceWithOperations(source: Source, operations: seq<OperationOrFragment>)

  /** What `processSources` returns (or throws), and the warnings it printed. */
  datatype Collected = Collected(outcome: Result<seq<SourceWithOperations>, Error>, warnings: seq<string>)

  /** The per-source state of the inner loop: collected operations and warnings. */
  datatype Scan = Scan(operations: seq<OperationOrFragment>, warnings: seq<string>)

  const CRLF: string := "\r\n"
  const LF: string := "\n"
  const AnonymousWarningPrefix: string := "[client-preset] the following anonymous operation is skipped: "

  /** The warning printed for an anonymous operation of a source with this raw text. */
  function Warning(rawSDL: string): (w: string)
    ensures AnonymousWarningPrefix <= w && w[|AnonymousWarningPrefix|..] == rawSDL
  {
    AnonymousWarningPrefix + rawSDL
  }

  /** A copy of the source whose raw text has every CRLF turned into LF. */
  function Normalized(s: Source): Source
    requires s.rawSDL.Some?
  {
    s.(rawSDL := Some(ReplaceAll(s.rawSDL.value, CRLF, LF)))
  }

  /**
    `fixLinebreaks`: copy the source, rewriting raw-text line endings only;
    `source.rawSDL!.replace(...)` on a source without raw text throws a `TypeError`.
   */
  function FixLinebreaks(s: Source): Result<Source, Error>
  {
    match s.rawSDL
    case None => Failure(TypeError)
    case Some(_) => Success(Normalized(s))
  }

  /**
    `fixLinebreaks` throws a `TypeError` exactly when there is no raw text; otherwise it
    turns each CRLF into LF, keeps every other field, shortens the text by
    one character per CRLF and returns a text without CRLF unchanged.
   */
  lemma FixLinebreaksSpec(s: Source)
    ensures FixLinebreaks(s).Success? <==> s.rawSDL.Some?
    ensures FixLinebreaks(s).Failure? ==> FixLinebreaks(s).error == TypeError
    ensures FixLinebreaks(s).Success? ==>
      var r := FixLinebreaks(s).value;
      r.document == s.document && r.location == s.location &&
      r.rawSDL == Some(ReplaceAll(s.rawSDL.value, CRLF, LF)) &&
      |r.rawSDL.value| == |s.rawSDL.value| - Count(s.rawSDL.value, CRLF) &&
      (!Contains(s.rawSDL.value, CRLF) ==> r == s)
  {
    if s.rawSDL.Some? {
      ReplaceAllLength(s.rawSDL.value, CRLF, LF);
      ReplaceAllUnchanged(s.rawSDL.value, CRLF, LF);
    }
  }

  /** `document?.definitions ?? []`: a source without a document has no definitions. */
  function DefinitionsOf(s: Source): seq<Definition>
  {
    if s.document.Some? then s.document.value else []
  }

  /** A definition that is collected: an operation or fragment that carries a name. */
  predicate Kept(d: Definition)
  {
    (d.kind == OperationDefinition || d.kind == FragmentDefinition) && d.name.Some?
  }

  /**
    The callback passed at codegen.ts:55-60 (and again at lib/codegen.ts:95-100):
    the fragment naming rule for fragments, the operation naming rule otherwise.
    The two rules belong to a code-generation library and are parameters here.
   */
  function BuildName(fragmentName: Definition -> string, operationName: Definition -> string, d: Definition): string
  {
    if d.kind == FragmentDefinition then fragmentName(d) else operationName(d)
  }

  /** One pass of the inner loop: skip, warn, or collect the definition. */
  function ScanStep(acc: Scan, d: Definition, rawSDL: string, buildName: Definition -> string): Scan
  {
    if d.kind != OperationDefinition && d.kind != FragmentDefinition then acc
    else if d.name.None? then
      if d.kind == OperationDefinition then acc.(warnings := acc.warnings + [Warning(rawSDL)]) else acc
    else acc.(operations := acc.operations + [OperationOrFragment(buildName(d), d)])
  }

  /** The inner loop over the definitions of one source, as a function of a prefix. */
  function ScanDefinitions(defs: seq<Definition>, rawSDL: string, buildName: Definition -> string): Scan
    decreases |defs|
  {
    if defs == [] then Scan([], [])
    else ScanStep(ScanDefinitions(defs[..|defs| - 1], rawSDL, buildName), defs[|defs| - 1], rawSDL, buildName)
  }

  /** One pass of the outer loop: fix the line endings, scan, keep the source if it has operations. */
  function CollectStep(acc: Collected, s: Source, buildName: Definition -> string): Collected
  {
    if acc.outcome.Failure? then acc
    else
      match FixLinebreaks(s)
      case Failure(e) => Collected(Failure(e), acc.warnings)
      case Success(source) =>
        var scan := ScanDefinitions(DefinitionsOf(source), source.rawSDL.value, buildName);
        var entries := if scan.operations == [] then [] else [SourceWithOperations(source, scan.operations)];
        Collected(Success(acc.outcome.value + entries), acc.warnings + scan.warnings)
  }

  /** The outer loop over the sources, as a function of a prefix; a throw stops it. */
  function Collect(sources: seq<Source>, buildName: Definition -> string): Collected
    decreases |sources|
  {
    if sources == [] then Collected(Success([]), [])
    else CollectStep(Collect(sources[..|sources| - 1], buildName), sources[|sources| - 1], buildName)
  }

  /** `processSources`: the outer loop, pushing into `sourcesWithOperations`. */
  method ProcessSources(sources: seq<Source>, buildName: Definition -> string) returns (r: Collected)
    ensures r == Collect(sources, buildName)
  {
    var sourcesWithOperations: seq<SourceWithOperations> := [];
    var warnings: seq<string> := [];
    for i := 0 to |sources|
      invariant Collect(sources[..i], buildName) == Collected(Success(sourcesWithOperations), warnings)
    {
      assert sources[..i + 1] == sources[..i] + [sources[i]];
      CollectAppend(sources[..i], sources[i], buildName);
      var fixed := FixLinebreaks(sources[i]);
      if fixed.Failure? {
        CollectStopsAtFailure(sources[..i + 1], sources[i + 1..], buildName);
        assert sources[..i + 1] + sources[i + 1..] == sources;
        return Collected(Failure(fixed.error), warnings);
      }
      var source := fixed.value;
      var operations, sourceWarnings := CollectOperations(DefinitionsOf(source), source.rawSDL.value, buildName);
      ghost var entries := if operations == [] then [] else [SourceWithOperations(source, operations)];
      assert Collect(sources[..i + 1], buildName) ==
        Collected(Success(sourcesWithOperations + entries), warnings + sourceWarnings);
      warnings := warnings + sourceWarnings;
      if |operations| == 0 {
        assert sourcesWithOperations + [] == sourcesWithOperations;
        continue;
      }
      sourcesWithOperations := sourcesWithOperations + [SourceWithOperations(source, operations)];
    }
    assert sources[..|sources|] == sources;
    r := Collected(Success(sourcesWithOperations), warnings);
  }

  /**
    The inner loop of `processSources` over one source's definitions, pushing
    into `operations`; the warnings it prints are returned.
   */
  method CollectOperations(definitions: seq<Definition>, rawSDL: string, buildName: Definition -> string)
    returns (operations: seq<OperationOrFragment>, warnings: seq<string>)
    ensures Scan(operations, warnings) == ScanDefinitions(definitions, rawSDL, buildName)
  {
    operations := [];
    warnings := [];
    for j := 0 to |definitions|
      invariant ScanDefinitions(definitions[..j], rawSDL, buildName) == Scan(operations, warnings)
    {
      assert definitions[..j + 1] == definitions[..j] + [definitions[j]];
      ScanDefinitionsAppend(definitions[..j], definitions[j], rawSDL, buildName);
      var definition := definitions[j];
      if definition.kind != OperationDefinition && definition.kind != FragmentDefinition {
        continue;
      }
      if definition.name.None? {
        if definition.kind == OperationDefinition {
          warnings := warnings + [Warning(rawSDL)];
        }
        continue;
      }
      operations := operations + [OperationOrFragment(buildName(definition), definition)];
    }
    assert definitions[..|definitions|] == definitions;
  }

  /** Appending a definition runs one more pass of the inner loop. */
  lemma ScanDefinitionsAppend(defs: seq<Definition>, d: Definition, rawSDL: string, buildName: Definition -> string)
    ensures ScanDefinitions(defs + [d], rawSDL, buildName) == ScanStep(ScanDefinitions(defs, rawSDL, buildName), d, rawSDL, buildName)
  {
    assert (defs + [d])[..|defs|] == defs;
  }

  /** Appending a source runs one more pass of the outer loop. */
  lemma CollectAppend(sources: seq<Source>, s: Source, buildName: Definition -> string)
    ensures Collect(sources + [s], buildName) == CollectStep(Collect(sources, buildName), s, buildName)
  {
    assert (sources + [s])[..|sources|] == sources;
  }

  /** Once a source throws, later sources change nothing: the script has stopped. */
  lemma {:induction false} CollectStopsAtFailure(xs: seq<Source>, ys: seq<Source>, buildName: Definition -> string)
    requires Collect(xs, buildName).outcome.Failure?
    ensures Collect(xs + ys, buildName) == Collect(xs, buildName)
    decreases |ys|
  {
    if ys == [] {
      assert xs + ys == xs;
    } else {
      var ys' := ys[..|ys| - 1];
      assert (xs + ys)[..|xs + ys| - 1] == xs + ys';
      CollectStopsAtFailure(xs, ys', buildName);
    }
  }

  // ---------------------------------------------------------------------------
  // Reference definitions the collection is compared against

  /** The kept definitions of a list, in order. */
  function KeptDefinitions(defs: seq<Definition>): (r: seq<Definition>)
    ensures forall k :: 0 <= k < |r| ==> Kept(r[k])
    decreases |defs|
  {
    if defs == [] then []
    else
      var d := defs[|defs| - 1];
      if Kept(d) then KeptDefinitions(defs[..|defs| - 1]) + [d] else KeptDefinitions(defs[..|defs| - 1])
  }

  /** How many anonymous operations a list of definitions holds. */
  function AnonymousOperations(defs: seq<Definition>): nat
    decreases |defs|
  {
    if defs == [] then 0
    else
      var d := defs[|defs| - 1];
      AnonymousOperations(defs[..|defs| - 1]) + (if d.kind == OperationDefinition && d.name.None? then 1 else 0)
  }

  /** The definitions of collected entries, in order. */
  function DefinitionsIn(ops: seq<OperationOrFragment>): (r: seq<Definition>)
    ensures |r| == |ops|
    ensures forall m :: 0 <= m < |ops| ==> r[m] == ops[m].definition
    decreases |ops|
  {
    if ops == [] then [] else DefinitionsIn(ops[..|ops| - 1]) + [ops[|ops| - 1].definition]
  }

  /** The sources of collected entries, in order. */
  function SourcesIn(entries: seq<SourceWithOperations>): (r: seq<Source>)
    ensures |r| == |entries|
    decreases |entries|
  {
    if entries == [] then [] else SourcesIn(entries[..|entries| - 1]) + [entries[|entries| - 1].source]
  }

  /** Every source has its raw text. */
  predicate AllHaveRawSDL(sources: seq<Source>)
  {
    forall i :: 0 <= i < |sources| ==> sources[i].rawSDL.Some?
  }

  /** The sources with line endings fixed. */
  function NormalizedAll(sources: seq<Source>): (r: seq<Source>)
    requires AllHaveRawSDL(sources)
    ensures |r| == |sources|
    decreases |sources|
  {
    if sources == [] then []
    else NormalizedAll(sources[..|sources| - 1]) + [Normalized(sources[|sources| - 1])]
  }

  /** How many sources hold at least one kept definition. */
  function SourcesWithKept(sources: seq<Source>): nat
    decreases |sources|
  {
    if sources == [] then 0
    else
      SourcesWithKept(sources[..|sources| - 1]) +
      (if KeptDefinitions(DefinitionsOf(sources[|sources| - 1])) == [] then 0 else 1)
  }

  /** How many anonymous operations all sources hold together. */
  function TotalAnonymousOperations(sources: seq<Source>): nat
    decreases |sources|
  {
    if sources == [] then 0
    else
      TotalAnonymousOperations(sources[..|sources| - 1]) +
      AnonymousOperations(DefinitionsOf(sources[|sources| - 1]))
  }

  /** `xs` is `ys` with some elements left out, order kept. */
  predicate IsSubsequence<T(==)>(xs: seq<T>, ys: seq<T>)
    decreases |ys|
  {
    if xs == [] then true
    else if ys == [] then false
    else if xs[|xs| - 1] == ys[|ys| - 1] then IsSubsequence(xs[..|xs| - 1], ys[..|ys| - 1])
    else IsSubsequence(xs, ys[..|ys| - 1])
  }

  lemma {:induction false} SubsequenceExtend<T>(xs: seq<T>, ys: seq<T>, y: T)
    requires IsSubsequence(xs, ys)
    ensures IsSubsequence(xs, ys + [y])
    decreases |ys|, 1
  {
    assert (ys + [y])[..|ys|] == ys;
    if xs != [] && xs[|xs| - 1] == y {
      SubsequenceDropLast(xs, ys);
    }
  }

  lemma {:induction false} SubsequenceDropLast<T>(xs: seq<T>, ys: seq<T>)
    requires xs != [] && IsSubsequence(xs, ys)
    ensures IsSubsequence(xs[..|xs| - 1], ys)
    decreases |ys|, 0
  {
    var ys' := ys[..|ys| - 1];
    assert ys == ys' + [ys[|ys| - 1]];
    if xs[|xs| - 1] == ys[|ys| - 1] {
      SubsequenceExtend(xs[..|xs| - 1], ys', ys[|ys| - 1]);
    } else {
      SubsequenceDropLast(xs, ys');
      SubsequenceExtend(xs[..|xs| - 1], ys', ys[|ys| - 1]);
    }
  }

  lemma {:induction false} SubsequenceAppend<T>(xs: seq<T>, ys: seq<T>, y: T)
    requires IsSubsequence(xs, ys)
    ensures IsSubsequence(xs + [y], ys + [y])
  {
    assert (xs + [y])[..|xs|] == xs;
    assert (ys + [y])[..|ys|] == ys;
  }

  lemma {:induction false} SubsequenceLength<T>(xs: seq<T>, ys: seq<T>)
    requires IsSubsequence(xs, ys)
    ensures |xs| <= |ys|
    decreases |ys|
  {
    if xs != [] {
      if xs[|xs| - 1] == ys[|ys| - 1] {
        SubsequenceLength(xs[..|xs| - 1], ys[..|ys| - 1]);
      } else {
        SubsequenceLength(xs, ys[..|ys| - 1]);
      }
    }
  }

  /** The kept definitions are a subsequence of all definitions. */
  lemma {:induction false} KeptIsSubsequence(defs: seq<Definition>)
    ensures IsSubsequence(KeptDefinitions(defs), defs)
    decreases |defs|
  {
    if defs != [] {
      var init, d := defs[..|defs| - 1], defs[|defs| - 1];
      KeptIsSubsequence(init);
      assert defs == init + [d];
      if Kept(d) {
        SubsequenceAppend(KeptDefinitions(init), init, d);
      } else {
        SubsequenceExtend(KeptDefinitions(init), init, d);
      }
    }
  }

  // ---------------------------------------------------------------------------
  // The inner loop: what one source contributes

  /** The collected definitions are exactly the kept ones, in order. */
  lemma {:induction false} ScanKeepsExactlyKept(defs: seq<Definition>, rawSDL: string, buildName: Definition -> string)
    ensures DefinitionsIn(ScanDefinitions(defs, rawSDL, buildName).operations) == KeptDefinitions(defs)
    decreases |defs|
  {
    if defs != [] {
      ScanKeepsExactlyKept(defs[..|defs| - 1], rawSDL, buildName);
      var ops := ScanDefinitions(defs[..|defs| - 1], rawSDL, buildName).operations;
      var d := defs[|defs| - 1];
      if Kept(d) {
        var o := OperationOrFragment(buildName(d), d);
        assert (ops + [o])[..|ops|] == ops;
      }
    }
  }

  /** Every entry of `ops` carries the name `buildName` derives for its definition. */
  predicate NamedBy(ops: seq<OperationOrFragment>, buildName: Definition -> string)
  {
    forall m :: 0 <= m < |ops| ==> ops[m].initialName == buildName(ops[m].definition)
  }

  /** Every collected definition carries the name `buildName` derives for it. */
  lemma {:induction false} ScanNames(defs: seq<Definition>, rawSDL: string, buildName: Definition -> string)
    ensures NamedBy(ScanDefinitions(defs, rawSDL, buildName).operations, buildName)
    decreases |defs|
  {
    if defs != [] {
      ScanNames(defs[..|defs| - 1], rawSDL, buildName);
      var ops := ScanDefinitions(defs[..|defs| - 1], rawSDL, buildName).operations;
      var d := defs[|defs| - 1];
      if Kept(d) {
        var ops' := ops + [OperationOrFragment(buildName(d), d)];
        assert ScanDefinitions(defs, rawSDL, buildName).operations == ops';
        assert forall m :: 0 <= m < |ops| ==> ops'[m] == ops[m];
      }
    }
  }

  /** One warning per anonymous operation, each naming this source's raw text. */
  lemma {:induction false} ScanWarnings(defs: seq<Definition>, rawSDL: string, buildName: Definition -> string)
    ensures var ws := ScanDefinitions(defs, rawSDL, buildName).warnings;
      |ws| == AnonymousOperations(defs) && forall k :: 0 <= k < |ws| ==> ws[k] == Warning(rawSDL)
    decreases |defs|
  {
    if defs != [] {
      ScanWarnings(defs[..|defs| - 1], rawSDL, buildName);
    }
  }

  // ---------------------------------------------------------------------------
  // The outer loop: the collection as a whole

  /** The collection throws, with a `TypeError`, exactly when some source has no raw text. */
  lemma {:induction false} CollectFailsIff(sources: seq<Source>, buildName: Definition -> string)
    ensures Collect(sources, buildName).outcome.Success? <==> AllHaveRawSDL(sources)
    ensures Collect(sources, buildName).outcome.Failure? ==> Collect(sources, buildName).outcome.error == TypeError
    decreases |sources|
  {
    if sources != [] {
      var init := sources[..|sources| - 1];
      CollectFailsIff(init, buildName);
      assert forall i :: 0 <= i < |init| ==> init[i] == sources[i];
    }
  }

  /** What a well-formed entry is: a non-empty, named, kept, ordered selection. */
  predicate WellFormedEntry(e: SourceWithOperations, buildName: Definition -> string)
  {
    && e.operations != []
    && DefinitionsIn(e.operations) == KeptDefinitions(DefinitionsOf(e.source))
    && NamedBy(e.operations, buildName)
  }

  /** In a well-formed entry only named operations and fragments appear, in source order. */
  lemma EntryOnlyNamed(e: SourceWithOperations, buildName: Definition -> string)
    requires WellFormedEntry(e, buildName)
    ensures forall m :: 0 <= m < |e.operations| ==> Kept(e.operations[m].definition)
    ensures IsSubsequence(DefinitionsIn(e.operations), DefinitionsOf(e.source))
  {
    KeptIsSubsequence(DefinitionsOf(e.source));
    var ds := DefinitionsIn(e.operations);
    forall m | 0 <= m < |e.operations| ensures Kept(e.operations[m].definition) {
      assert ds[m] == e.operations[m].definition;
    }
  }

  /** Every returned entry is well formed and keeps the document of its source. */
  lemma {:induction false} CollectEntries(sources: seq<Source>, buildName: Definition -> string)
    requires Collect(sources, buildName).outcome.Success?
    ensures var es := Collect(sources, buildName).outcome.value;
      forall k :: 0 <= k < |es| ==> WellFormedEntry(es[k], buildName)
    decreases |sources|
  {
    if sources != [] {
      var init := sources[..|sources| - 1];
      CollectEntries(init, buildName);
      var last := sources[|sources| - 1];
      var source := FixLinebreaks(last).value;
      ScanKeepsExactlyKept(DefinitionsOf(source), source.rawSDL.value, buildName);
      ScanNames(DefinitionsOf(source), source.rawSDL.value, buildName);
    }
  }

  /**
    The returned sources are, in order, the line-ending-fixed input sources
    that hold at least one kept definition: never more than the input.
   */
  lemma {:induction false} CollectOrder(sources: seq<Source>, buildName: Definition -> string)
    requires Collect(sources, buildName).outcome.Success?
    ensures AllHaveRawSDL(sources)
    ensures var es := Collect(sources, buildName).outcome.value;
      IsSubsequence(SourcesIn(es), NormalizedAll(sources)) &&
      |es| == SourcesWithKept(sources) && |es| <= |sources|
    decreases |sources|
  {
    CollectFailsIff(sources, buildName);
    if sources != [] {
      var init, last := sources[..|sources| - 1], sources[|sources| - 1];
      assert sources == init + [last];
      assert AllHaveRawSDL(init) by {
        assert forall i :: 0 <= i < |init| ==> init[i] == sources[i];
      }
      CollectFailsIff(init, buildName);
      CollectOrder(init, buildName);
      CollectOrderStep(init, last, buildName);
    }
    var es := Collect(sources, buildName).outcome.value;
    SubsequenceLength(SourcesIn(es), NormalizedAll(sources));
  }

  /** One source more: it is kept, after its line endings are fixed, exactly when it holds a kept definition. */
  lemma CollectOrderStep(init: seq<Source>, last: Source, buildName: Definition -> string)
    requires Collect(init, buildName).outcome.Success? && AllHaveRawSDL(init) && last.rawSDL.Some?
    requires var es := Collect(init, buildName).outcome.value;
      IsSubsequence(SourcesIn(es), NormalizedAll(init)) && |es| == SourcesWithKept(init)
    ensures AllHaveRawSDL(init + [last]) && Collect(init + [last], buildName).outcome.Success?
    ensures var es := Collect(init + [last], buildName).outcome.value;
      IsSubsequence(SourcesIn(es), NormalizedAll(init + [last])) && |es| == SourcesWithKept(init + [last])
  {
    var sources := init + [last];
    assert sources[..|init|] == init && sources[|init|] == last;
    CollectAppend(init, last, buildName);
    var es' := Collect(init, buildName).outcome.value;
    var source := Normalized(last);
    var scan := ScanDefinitions(DefinitionsOf(source), source.rawSDL.value, buildName);
    ScanKeepsExactlyKept(DefinitionsOf(source), source.rawSDL.value, buildName);
    assert DefinitionsOf(source) == DefinitionsOf(last);
    assert scan.operations == [] <==> KeptDefinitions(DefinitionsOf(last)) == [];
    assert AllHaveRawSDL(sources);
    assert NormalizedAll(sources) == NormalizedAll(init) + [source];
    var es := Collect(sources, buildName).outcome.value;
    if scan.operations == [] {
      assert es == es';
      SubsequenceExtend(SourcesIn(es'), NormalizedAll(init), source);
    } else {
      var e := SourceWithOperations(source, scan.operations);
      assert es == es' + [e];
      assert es[..|es'|] == es';
      assert SourcesIn(es) == SourcesIn(es') + [source];
      SubsequenceAppend(SourcesIn(es'), NormalizedAll(init), source);
    }
  }

  /** Exactly one warning per anonymous operation, across all sources. */
  lemma {:induction false} CollectWarnings(sources: seq<Source>, buildName: Definition -> string)
    requires Collect(sources, buildName).outcome.Success?
    ensures |Collect(sources, buildName).warnings| == TotalAnonymousOperations(sources)
    decreases |sources|
  {
    if sources != [] {
      var init, last := sources[..|sources| - 1], sources[|sources| - 1];
      CollectWarnings(init, buildName);
      var source := FixLinebreaks(last).value;
      ScanWarnings(DefinitionsOf(source), source.rawSDL.value, buildName);
    }
  }

  /**
    Names follow the definition kind: every collected fragment is named by
    the fragment rule and every collected operation by the operation rule.
   */
  lemma NamingRule(sources: seq<Source>, fragmentName: Definition -> string, operationName: Definition -> string)
    requires Collect(sources, d => BuildName(fragmentName, operationName, d)).outcome.Success?
    ensures var es := Collect(sources, d => BuildName(fragmentName, operationName, d)).outcome.value;
      forall k, m :: 0 <= k < |es| && 0 <= m < |es[k].operations| ==>
        var o := es[k].operations[m];
        (o.definition.kind == FragmentDefinition ==> o.initialName == fragmentName(o.definition)) &&
        (o.definition.kind == OperationDefinition ==> o.initialName == operationName(o.definition))
  {
    var buildName := d => BuildName(fragmentName, operationName, d);
    CollectEntries(sources, buildName);
  }
}
