/**
  The library form of the generator (lib/codegen.ts): the same stages as the
  script, each exported on its own, with the literal rewrites applied to the
  stage outputs, the scalar mapping, and two constant snippets. Stage
  outputs come from code-generation plugins and are opaque strings here.
 */
module LibCodegen {
  import opened Wrappers
  import opened Text
  import opened Sources
  import Stitch

  /** The import the typed-document stage emits, and the one that replaces it. */
  const CoreDecorationImport: string :=
    "import { DocumentTypeDecoration } from '@graphql-typed-document-node/core';"
  const DenoDecorationImport: string :=
    "import { DocumentTypeDecoration } from 'https://deno.land/x/exograph_deno_utils@v0.0.7/mod.ts';"

  /** Patterns and replacement of the gql-tag rewrites; the qualifier `types.` is `Stitch.TypesQualifier`. */
  const TypesImportLine: string := "import * as types from './graphql.js';\n"
  const TypeofImport: string := "typeof import('./graphql.js')."
  const TypeofKeyword: string := "typeof "

  /** The tag name the gql-tag stage is configured with, and the stub defines. */
  const GqlTagName: string := "graphql"

  /** `generateTypedDocuments` after the plugin: swap the decoration import, end with a newline. */
  function TypedDocumentsPostProcess(raw: string): (r: string)
    ensures r != [] && r[|r| - 1] == '\n'
    ensures |r| > |raw|
    ensures r == raw + "\n" <==> !Contains(raw, CoreDecorationImport)
  {
    var swapped := ReplaceAll(raw, CoreDecorationImport, DenoDecorationImport);
    assert |swapped| >= |raw| && (swapped == raw <==> !Contains(raw, CoreDecorationImport)) by {
      ReplaceAllNeverShorter(raw, CoreDecorationImport, DenoDecorationImport);
      ReplaceAllUnchanged(raw, CoreDecorationImport, DenoDecorationImport);
      if Contains(raw, CoreDecorationImport) {
        ReplaceAllLengthens(raw, CoreDecorationImport, DenoDecorationImport);
      }
    }
    assert (swapped + "\n")[..|swapped|] == swapped && (raw + "\n")[..|raw|] == raw;
    swapped + "\n"
  }

  /** `generateGqlTagOperations` after the plugin: the three rewrites, in order. */
  function GqlTagPostProcess(raw: string): (r: string)
    ensures |r| <= |raw|
    ensures r == raw <==>
      !Contains(raw, TypesImportLine) && !Contains(raw, Stitch.TypesQualifier) && !Contains(raw, TypeofImport)
  {
    var t1 := ReplaceAll(raw, TypesImportLine, "");
    var t2 := ReplaceAll(t1, Stitch.TypesQualifier, "");
    var t3 := ReplaceAll(t2, TypeofImport, TypeofKeyword);
    GqlTagShortens(raw);
    ReplaceAllUnchanged(raw, TypesImportLine, "");
    ReplaceAllUnchanged(t1, Stitch.TypesQualifier, "");
    ReplaceAllUnchanged(t2, TypeofImport, TypeofKeyword);
    t3
  }

  /** Each rewrite that finds its pattern shortens the text, and none lengthens it. */
  lemma GqlTagShortens(raw: string)
    ensures var t1 := ReplaceAll(raw, TypesImportLine, "");
      var t2 := ReplaceAll(t1, Stitch.TypesQualifier, "");
      var t3 := ReplaceAll(t2, TypeofImport, TypeofKeyword);
      (Contains(raw, TypesImportLine) || Contains(raw, Stitch.TypesQualifier) || Contains(raw, TypeofImport)) ==> |t3| < |raw|
  {
    var t1 := ReplaceAll(raw, TypesImportLine, "");
    var t2 := ReplaceAll(t1, Stitch.TypesQualifier, "");
    ReplaceAllNeverLonger(raw, TypesImportLine, "");
    ReplaceAllNeverLonger(t1, Stitch.TypesQualifier, "");
    ReplaceAllNeverLonger(t2, TypeofImport, TypeofKeyword);
    ReplaceAllUnchanged(raw, TypesImportLine, "");
    ReplaceAllUnchanged(t1, Stitch.TypesQualifier, "");
    if Contains(raw, TypesImportLine) {
      ReplaceAllShortens(raw, TypesImportLine, "");
    } else if Contains(raw, Stitch.TypesQualifier) {
      ReplaceAllShortens(t1, Stitch.TypesQualifier, "");
    } else if Contains(raw, TypeofImport) {
      ReplaceAllShortens(t2, TypeofImport, TypeofKeyword);
    }
  }

  /** The naming callback of lib/codegen.ts:95-100: the kind dispatch over the two naming rules. */
  function LibraryBuildName(fragmentName: Definition -> string, operationName: Definition -> string): Definition -> string
  {
    d => BuildName(fragmentName, operationName, d)
  }

  /**
    `generateGqlTagOperations`: collect the sources with the kind-dispatching
    naming callback, hand them to the plugin, rewrite its output. The plugin
    is a parameter; a source without raw text makes the collection throw.
   */
  function GqlTagOperations(documents: seq<Source>, fragmentName: Definition -> string, operationName: Definition -> string,
                            plugin: seq<SourceWithOperations> -> string): (r: Result<string, Error>)
    ensures r.Success? <==> AllHaveRawSDL(documents)
    ensures r.Failure? ==> r.error == TypeError
    ensures var collected := Collect(documents, LibraryBuildName(fragmentName, operationName)).outcome;
      collected.Success? ==> r == Success(GqlTagPostProcess(plugin(collected.value)))
    ensures var collected := Collect(documents, LibraryBuildName(fragmentName, operationName)).outcome;
      collected.Success? ==> r.Success? && |r.value| <= |plugin(collected.value)|
  {
    var collected := Collect(documents, LibraryBuildName(fragmentName, operationName));
    CollectFailsIff(documents, LibraryBuildName(fragmentName, operationName));
    match collected.outcome
    case Failure(e) => Failure(e)
    case Success(sourcesWithOperations) => Success(GqlTagPostProcess(plugin(sourcesWithOperations)))
  }

  /** `generateHeader`: the lint directive alone, which also opens the script's header. */
  function GenerateHeader(): (h: string)
    ensures h <= Stitch.OutputHeader
    ensures h == "// deno-lint-ignore-file\n\n"
  {
    Stitch.LintDirective
  }

  /** `generateGqlStub`: a stub definition of the tag function the gql-tag stage calls. */
  function GenerateGqlStub(): (s: string)
    ensures "export function " + GqlTagName + "(" <= s
  {
    "export function " + GqlTagName + "(source: string): unknown { return  {}; }"
  }

  /** The scalar mapping the library passes to the TypeScript plugin. */
  function LibraryScalars(): (m: map<string, string>)
    ensures m.Keys == Stitch.ScriptScalars().Keys
  {
    map[
      "Decimal" := "number",
      "Instant" := "string",
      "LocalDate" := "string",
      "LocalDateTime" := "string",
      "LocalTime" := "string",
      "Json" := "unknown",
      "Uuid" := "string",
      "Vector" := "number[]"
    ]
  }

  /** The mapping covers eight scalars. */
  lemma LibraryScalarsCount()
    ensures |LibraryScalars().Keys| == 8
  {
  }

  /** One scalar maps to `number`, five to `string`, the JSON scalar to `unknown`, the vector to `number[]`. */
  lemma LibraryScalarsTable()
    ensures forall k | k in LibraryScalars() :: LibraryScalars()[k] == "string" <==>
      k in {"Instant", "LocalDate", "LocalDateTime", "LocalTime", "Uuid"}
    ensures LibraryScalars()["Decimal"] == "number" && LibraryScalars()["Json"] == "unknown"
    ensures LibraryScalars()["Vector"] == "number[]"
  {
  }

  /** The library and the script map every scalar alike except `Vector`. */
  lemma ScalarTablesDifferOnlyInVector()
    ensures forall k | k in LibraryScalars() :: LibraryScalars()[k] == Stitch.ScriptScalars()[k] <==> k != "Vector"
    ensures LibraryScalars()["Vector"] == "number[]" && Stitch.ScriptScalars()["Vector"] == "unknown"
  {
  }
}
