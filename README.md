# Exograph Deno client: code generation and query helpers

This project models two parts of the Deno client library of Exograph:

- **The code generator.** The `codegen.ts` script and its library form, `lib/codegen.ts`. Each generation stage is a code-generation plugin whose output is an opaque string here. Around those strings, the model covers:
  - *Collection.* How the generator collects the named operations and fragments of the scanned source files (`processSources`, `fixLinebreaks` and the name-deriving callback). It also covers the warnings that collection emits.
  - *Stitching.* How the script concatenates the four stage outputs, runs four literal rewrites over them and puts a fixed header in front.
  - *Library post-processing.* The rewrites that `lib/codegen.ts` applies to the typed-document and gql-tag stage outputs.
  - *Constants.* The two scalar mappings, the header and the stub.
- **The query helpers.** `executeQuery` and `executeQueryPriv` exist in two versions:
  - the `mod.ts` version takes a parsed document and reads `doc.loc!.source.body`;
  - the `lib/execute.ts` version takes a typed document *string* object.

  The model states which entry point of the Exograph instance each helper calls, and with which arguments. It also states when a helper throws instead of calling.

Modules:

| module | file | models |
|---|---|---|
| `Wrappers` | wrappers.dfy | `Option`, `Result`, and the JavaScript exceptions the modelled code throws |
| `Text` | text.dfy | JavaScript's `String.prototype.replace` (first occurrence) and `replaceAll` (one left-to-right pass, no overlap) for literal patterns |
| `Sources` | sources.dfy | `processSources`, `fixLinebreaks` and the `buildName` callback |
| `Stitch` | stitch.dfy | the assembly of the output in `codegen.ts`, and its scalar table |
| `LibCodegen` | libcodegen.dfy | the stage post-processing, the name dispatch, the scalars, `generateHeader` and `generateGqlStub` of `lib/codegen.ts` |
| `Transport` | transport.dfy | JavaScript's optional arguments (`undefined` / `null` / a value) and the shape of a call into an Exograph instance |
| `ModExecute` | modexecute.dfy | the query helpers of `mod.ts` |
| `LibExecute` | libexecute.dfy | the query helpers of `lib/execute.ts` |

`processSources` is written imperatively in the source: a `for` loop over the sources, with a nested `for` loop over each document's definitions. It is modelled by two methods:

- `Sources.ProcessSources` is the outer loop;
- `Sources.CollectOperations` is the inner loop.

Each method is proved equal to a prefix-recursive specification function, `Collect` and `ScanDefinitions` respectively. The properties the source promises are proved as lemmas about those functions. The remaining code is expression-shaped and is modelled by functions.

In the source, throwing at `source.rawSDL!.replace(...)` when `rawSDL` is missing is a `TypeError`. Here it is an explicit `Failure` outcome. The warnings printed before the throw are kept in the result.

## Model

| member | source | states |
|---|---|---|
| `Text.FirstIndex` | codegen.ts:136 | the search `replace` performs (`indexOf`); no contract of its own, specified by `Text.FirstIndexSpec` |
| `Text.ReplaceFirst` | codegen.ts:136 | JavaScript's `replace` with a literal pattern: the first occurrence only; no contract of its own, specified by `Text.ReplaceFirstSpec` and `Text.ReplaceFirstIsReplaceAll` |
| `Text.ReplaceAll` | lib/codegen.ts:122-125 | JavaScript's `replaceAll` with a literal pattern (also codegen.ts:137-142, 208 and lib/codegen.ts:79-82); no contract of its own, specified by `Text.ReplaceAllAtFirstIndex`, `Text.ReplaceAllUnchanged`, `Text.ReplaceAllLength` and the lemmas below |
| `Text.ContainsIff` | codegen.ts:136-142 | the recursive occurrence test holds exactly when the pattern occurs at some index |
| `Text.FirstIndexSpec` | codegen.ts:136 | the search for `replace` finds an index exactly when the pattern occurs; the pattern occurs at that index, and at no earlier index |
| `Text.ReplaceFirstSpec` | codegen.ts:136 | `replace` leaves text without the pattern unchanged; otherwise it changes the length by `|rep| - |pat|` (one replacement) |
| `Text.TooShortToContain` | codegen.ts:136-142 | text shorter than the pattern does not contain it |
| `Text.CountZeroIff` | lib/codegen.ts:122-125 | the pass replaces nothing exactly when the pattern does not occur |
| `Text.ReplaceAllLength` | lib/codegen.ts:122-125 | after `replaceAll`, the length is the old length plus (replacements × (`|rep| - |pat|`)) |
| `Text.ReplaceAllUnchanged` | codegen.ts:137-142 | `replaceAll` leaves text without the pattern unchanged |
| `Text.ReplaceAllNeverLonger` | lib/codegen.ts:123-124 | a replacement no longer than the pattern never lengthens the text |
| `Text.ReplaceAllNeverShorter` | lib/codegen.ts:79-82 | a replacement no shorter than the pattern never shortens the text |
| `Text.ReplaceAllShortens` | lib/codegen.ts:123-125 | a shorter replacement strictly shortens text that contains the pattern |
| `Text.ReplaceAllLengthens` | lib/codegen.ts:79-82 | a longer replacement strictly lengthens text that contains the pattern |
| `Text.ReplaceAllAtFirstIndex` | codegen.ts:137-142 | `replaceAll` copies the text before the first occurrence, emits the replacement, then continues after the occurrence |
| `Text.CountAtFirstIndex` | codegen.ts:137-142 | the first occurrence is replaced, and counting continues after it |
| `Text.ReplaceFirstIsReplaceAll` | codegen.ts:136-137 | with at most one occurrence, `replace` and `replaceAll` agree |
| `Text.PrefixSurvives` | codegen.ts:142 | a prefix of the output that avoids the replacement's first character was already a prefix of the input |
| `Text.NoMatchAtStart` | codegen.ts:142 | under those character conditions, a pattern at the start of the output was already at the start of the input |
| `Text.RenameIsComplete` | codegen.ts:142 | when renaming `pat` to `pre + pat`: every `pat` left in the output is the tail of a `pre + pat` |
| `Sources.Warning` | codegen.ts:181-183 | the warning is the fixed prefix followed by the source's raw text |
| `Sources.FixLinebreaks` | codegen.ts:205-211 | no contract of its own; specified by `Sources.FixLinebreaksSpec` |
| `Sources.FixLinebreaksSpec` | codegen.ts:205-211 | the fix throws a `TypeError` exactly when `rawSDL` is missing; it keeps the document and the location; it replaces every CRLF with LF; the text loses one character per CRLF; text without CRLF is unchanged |
| `Sources.BuildName` | codegen.ts:55-60 | the naming callback's kind dispatch; no contract of its own, specified by `Sources.NamingRule` |
| `Sources.ScanStep` | codegen.ts:173-191 | one pass of the inner loop; no contract of its own, unfolded by `Sources.ScanDefinitionsAppend` |
| `Sources.ScanDefinitions` | codegen.ts:170-192 | the inner loop over one document, as a function; no contract of its own, specified by `Sources.ScanKeepsExactlyKept`, `Sources.ScanNames` and `Sources.ScanWarnings` |
| `Sources.CollectStep` | codegen.ts:168-199 | one pass of the outer loop; no contract of its own, unfolded by `Sources.CollectAppend` |
| `Sources.Collect` | codegen.ts:161-203 | `processSources` as a function; no contract of its own, specified by `Sources.CollectFailsIff`, `Sources.CollectEntries`, `Sources.CollectOrder` and `Sources.CollectWarnings` |
| `Sources.ScanDefinitionsAppend` | codegen.ts:172-192 | one more definition is one more pass of the inner loop |
| `Sources.CollectAppend` | codegen.ts:167-200 | one more source is one more pass of the outer loop |
| `Sources.ProcessSources` | codegen.ts:161-203 | the two nested loops compute `Collect`: the same entries, the same warnings, the same failure |
| `Sources.CollectOperations` | codegen.ts:170-192 | the inner loop computes `ScanDefinitions`: the collected entries and the warnings for one document |
| `Sources.CollectStopsAtFailure` | codegen.ts:168 | once a source without raw text throws, no later source changes the outcome |
| `Sources.KeptDefinitions` | codegen.ts:173-186 | every selected definition is a named operation or fragment |
| `Sources.KeptIsSubsequence` | codegen.ts:172-192 | the selected definitions keep their order in the document |
| `Sources.ScanKeepsExactlyKept` | codegen.ts:172-192 | the inner loop pushes exactly the named operations and fragments, in document order, and drops the definitions of other kinds and the anonymous ones |
| `Sources.ScanNames` | codegen.ts:188-191 | every pushed entry's `initialName` is `buildName` of its own definition |
| `Sources.ScanWarnings` | codegen.ts:179-186 | one warning per anonymous operation and none for anonymous fragments; each warning carries this source's fixed raw text |
| `Sources.CollectFailsIff` | codegen.ts:167-168 | the collection throws a `TypeError` exactly when some input source has no raw text |
| `Sources.EntryOnlyNamed` | codegen.ts:173-191 | an entry holds only named operations and fragments, as a subsequence of its document's definitions |
| `Sources.CollectEntries` | codegen.ts:188-199 | every returned entry is non-empty, holds exactly the kept definitions of its source, and is named by `buildName` |
| `Sources.CollectOrder` | codegen.ts:167-200 | the returned sources, with line endings fixed, are an in-order subsequence of the input; there is one entry per source with a kept definition; there are never more entries than sources |
| `Sources.CollectOrderStep` | codegen.ts:194-199 | one source more adds an entry exactly when that source has a kept definition |
| `Sources.CollectWarnings` | codegen.ts:179-186 | the total number of warnings equals the number of anonymous operations across all sources |
| `Sources.NamingRule` | codegen.ts:55-60 | collected fragments are named by the fragment rule, and collected operations by the operation rule |
| `Stitch.Concatenation` | codegen.ts:62-134 | the result is the four stage outputs side by side, in the script's order, each at its own slice, with one newline between the typed documents and the gql operations |
| `Stitch.Rewritten` | codegen.ts:136-142 | the four rewrites in order; no contract of its own, specified by `Stitch.RewrittenUnchanged`, `Stitch.RenamingIsComplete` and `Stitch.QualifierRemovalIsOnePass` |
| `Stitch.GenerateOutput` | codegen.ts:62-149 | the output is the header followed by the four rewrites of the concatenation; it always starts with the header |
| `Stitch.RewrittenUnchanged` | codegen.ts:136-142 | text holding none of the four patterns passes through the rewrites unchanged |
| `Stitch.RenamingPatternsQualify` | codegen.ts:142 | `DocumentNode` and `Typed` meet the character conditions of `Text.RenameIsComplete`, and `TypedDocumentNode` is `Typed` + `DocumentNode` |
| `Stitch.RenamingIsComplete` | codegen.ts:142 | no bare `DocumentNode` survives: each one in the rewritten text is the tail of a `TypedDocumentNode` |
| `Stitch.HeaderUntouched` | codegen.ts:145-149 | the output starts with the header, and the header's own `TypedDocumentNode` is not renamed again |
| `Stitch.QualifierRemovalIsOnePass` | codegen.ts:137 | removing `types.` is a single pass: `ttypes.ypes.` rewrites to `types.` |
| `Stitch.ScriptScalars` | codegen.ts:72-81 | the script maps exactly the eight Exograph scalars |
| `LibCodegen.TypedDocumentsPostProcess` | lib/codegen.ts:78-83 | the result ends in a newline and is longer than the plugin output; it is the plugin output plus a newline exactly when the core decoration import is absent |
| `LibCodegen.GqlTagShortens` | lib/codegen.ts:122-125 | if any of the three patterns occurs, the rewritten output is strictly shorter |
| `LibCodegen.GqlTagPostProcess` | lib/codegen.ts:122-125 | the rewrites never lengthen the output; they leave it unchanged exactly when none of the three patterns occurs |
| `LibCodegen.LibraryBuildName` | lib/codegen.ts:95-100 | the library's naming callback, the same kind dispatch as the script's; no contract of its own |
| `LibCodegen.GqlTagOperations` | lib/codegen.ts:86-126 | the collection with the kind-dispatching callback throws a `TypeError` exactly when some document has no raw text; otherwise the result is the three rewrites of the plugin's output for the collected sources, never longer than that output |
| `LibCodegen.GenerateHeader` | lib/codegen.ts:128-130 | the header is the lint directive, which also opens the script's header |
| `LibCodegen.GenerateGqlStub` | lib/codegen.ts:132-134 | the stub defines a function with the gql-tag name that the stage is configured with (line 112) |
| `LibCodegen.LibraryScalars` | lib/codegen.ts:26-35 | the library maps the same eight scalars as the script |
| `LibCodegen.LibraryScalarsCount` | lib/codegen.ts:26-35 | eight scalars are mapped |
| `LibCodegen.LibraryScalarsTable` | lib/codegen.ts:26-35 | five scalars map to `string`, `Decimal` to `number`, `Json` to `unknown` and `Vector` to `number[]` |
| `LibCodegen.ScalarTablesDifferOnlyInVector` | lib/codegen.ts:34 | the two tables agree on every scalar except `Vector`, which is `number[]` here and `unknown` in the script (codegen.ts:80) |
| `ModExecute.Body` | mod.ts:80 | `doc.loc!.source.body` throws a `TypeError` exactly when `loc` is missing; otherwise it yields the body |
| `ModExecute.ExecuteQueryPriv` | mod.ts:69-92 | throws exactly when `loc` is missing; calls the private entry point with the body; undefined variables mean a call with the operation alone; the callee receives what was given, except when a context comes without variables |
| `ModExecute.ExecuteQuery` | mod.ts:103-112 | calls the public entry point with the body, and never passes a context; `null` variables count as missing (`==`) |
| `ModExecute.PrivCases` | mod.ts:79-91 | the three branches, one call each |
| `ModExecute.NullVarsRouting` | mod.ts:79-84 | `null` variables are forwarded by the private helper (`===`) and dropped by the public one (`==`, line 108) |
| `ModExecute.QueryAgreesWithPriv` | mod.ts:79-84 | without a context, the two helpers pass the same arguments exactly when the variables are not `null` |
| `ModExecute.PrivDropsContext` | mod.ts:79-81 | as written: a context override given without variables never reaches the callee |
| `ModExecute.ExecuteQueryPrivForwarding` | mod.ts:69-92 | the corrected helper: the callee receives exactly the given variables and context |
| `ModExecute.ForwardingDiffersOnlyWithoutVars` | mod.ts:79-81 | the written and the corrected helper differ exactly when a context comes without variables |
| `LibExecute.OperationText` | lib/execute.ts:39-42 | the assertion passes exactly for a `String` object, and then yields its text; otherwise it throws with the given message |
| `LibExecute.ExecuteQueryPriv` | lib/execute.ts:29-61 | throws exactly when the document is not a `String` object; calls the private entry point with the text; the callee receives exactly the given variables and context |
| `LibExecute.ExecuteQuery` | lib/execute.ts:72-86 | throws exactly when the document is not a `String` object; calls the public entry point, never with a context; `null` variables count as missing |
| `LibExecute.PrivCases` | lib/execute.ts:44-60 | the four branches, one call each; a context without variables is passed with an explicit `undefined` |
| `LibExecute.NullVarsRouting` | lib/execute.ts:44-57 | `null` variables are forwarded by the private helper and dropped by the public one (line 82) |
| `LibExecute.AgreesWithModHelpers` | lib/execute.ts:44-60 | given the same text, the public helpers call alike; the private ones call alike except when a context comes without variables; the private helper here equals the corrected `mod.ts` helper |

## Left out

- A thrown exception is modelled by its class, `TypeError` or `AssertionError` (`Wrappers.Error`), and not by its message, except for the message supplied to `assertInstanceOf`.
- File I/O and parsing are not modelled: loading the schema and the documents, `parse`, `printSchema`, `Deno.writeFile`, and the command-line handling of `codegen.ts`.
- The four code-generation plugins (typescript, operations, typed-document, gql-tag) are foreign code. Their outputs are parameters: opaque strings, or a function of the collected sources.
- The visitor's naming rules (`getFragmentVariableName`, `getOperationVariableName`) are foreign code and are parameters.
- `async`/`await` and Promises are left out. A helper's result is the one call it makes into the Exograph instance, or the exception it throws.
- `console.warn` and `console.log` are not modelled as output. The warnings of the collection are returned as a list, in order.
- The `strictScalars` and `skipTypename` options are passed through to a plugin and are not modelled.
- The type-only declarations are not modelled: `lib/typed-document-node.ts`, the overload signatures in `mod.ts` and `lib/execute.ts`, and the type parameters.
- `process-sources.ts` of the upstream preset is not part of this model. The copy in `codegen.ts:161-211` is what is modelled.
- `Sources.Source` leaves out the `schema` field of a document source. `fixLinebreaks` copies it unchanged (codegen.ts:206), and nothing in the modelled code reads it.
- Definition nodes are modelled by their kind, a three-way tag whose third value covers every other kind and a missing entry, and by an optional name. The check `definition.name?.kind !== 'Name'` is modelled as a missing name, since a present name node always has kind `Name`.
- `Text.ReplaceAll`: an empty search pattern is excluded (`requires pat != []`). JavaScript inserts the replacement between every pair of characters in that case. Every call site uses a non-empty literal pattern.
- `Text.ReplaceFirst`: specified through `Text.FirstIndex`; only `Text.ReplaceFirstIsReplaceAll`, which compares it with `Text.ReplaceAll`, excludes the empty pattern. JavaScript's special replacement patterns (`$&`, `$1`, …) are not modelled; no replacement string at the call sites contains `$`.
- `LibExecute.OperationText`: only the caller-supplied message of `assertInstanceOf` is modelled, not the full text it composes.
- `GenerateOutput` and the other stitching members model the string values only. Reassigning `output` in place is modelled as a sequence of method-local assignments.

## Findings

| source | as written | input that shows it | evidently intended | confidence | as-written member | corrected member |
|---|---|---|---|---|---|---|
| mod.ts:79-81 | when `vars === undefined`, `executeQueryPriv` calls the instance with the operation text alone, so a supplied `contextOverride` is silently dropped | `executeQueryPriv(exograph, doc, undefined, ctx)` with any `ctx`; no typed overload (mod.ts:50-68) admits it, since a context needs `vars: R`, so only an untyped caller, or a caller whose variables are `undefined` at run time, reaches it | forward the context with an explicit `undefined` for the variables, as lib/execute.ts:45-51 does | medium; not executed | `ModExecute.PrivDropsContext` (about `ModExecute.ExecuteQueryPriv`) | `ModExecute.ExecuteQueryPrivForwarding` |
