/**
  The script part of codegen.ts that assembles the generated module: the
  four stage outputs are concatenated, four literal rewrites run over the
  result, and a fixed header is put in front. The stage outputs come from
  code-generation plugins and are opaque strings here.
 */
module Stitch {
  import opened Text

  /** The namespace import the operations stage emits. */
  const TypesImport: string := "import * as types from './graphql.js';"
  /** The namespace qualifier in front of every generated type name. */
  const TypesQualifier: string := "types."
  /** The aliased import the typed-document stage emits. */
  const DocumentNodeImport: string :=
    "import { TypedDocumentNode as DocumentNode } from '@graphql-typed-document-node/core';"
  const DocumentNodeName: string := "DocumentNode"
  const TypedPrefix: string := "Typed"
  const TypedDocumentNodeName: string := "TypedDocumentNode"

  /** The lint directive that opens the generated module. */
  const LintDirective: string := "// deno-lint-ignore-file\n\n"
  const ImportOpening: string := "import { "
  /** The header the script puts in front of the rewritten text. */
  const OutputHeader: string :=
    LintDirective + ImportOpening + TypedDocumentNodeName +
    " } from \"https://deno.land/x/exograph_deno_utils@v0.0.1/mod.ts\";\n"

  /** The stage outputs in the order the script appends them. */
  function Concatenation(schemaTypes: string, operationTypes: string, typedDocuments: string, gqlOperations: string): (t: string)
    ensures |t| == |schemaTypes| + |operationTypes| + |typedDocuments| + 1 + |gqlOperations|
    ensures t[..|schemaTypes|] == schemaTypes
    ensures t[|schemaTypes|..|schemaTypes| + |operationTypes|] == operationTypes
    ensures t[|schemaTypes| + |operationTypes|..|schemaTypes| + |operationTypes| + |typedDocuments|] == typedDocuments
    ensures t[|schemaTypes| + |operationTypes| + |typedDocuments|] == '\n'
    ensures t[|t| - |gqlOperations|..] == gqlOperations
  {
    schemaTypes + operationTypes + typedDocuments + "\n" + gqlOperations
  }

  /** The four rewrites, in the order the script applies them. */
  function Rewritten(t: string): string
  {
    var t1 := ReplaceFirst(t, TypesImport, "");
    var t2 := ReplaceAll(t1, TypesQualifier, "");
    var t3 := ReplaceAll(t2, DocumentNodeImport, "");
    ReplaceAll(t3, DocumentNodeName, TypedDocumentNodeName)
  }

  /** The stitching: `let output` is extended with `+=`, then reassigned by each rewrite. */
  method GenerateOutput(schemaTypes: string, operationTypes: string, typedDocuments: string, gqlOperations: string)
    returns (output: string)
    ensures output == OutputHeader + Rewritten(Concatenation(schemaTypes, operationTypes, typedDocuments, gqlOperations))
    ensures OutputHeader <= output
  {
    output := schemaTypes;
    output := output + operationTypes;
    output := output + typedDocuments;
    output := output + "\n";
    output := output + gqlOperations;
    assert output == Concatenation(schemaTypes, operationTypes, typedDocuments, gqlOperations);
    output := ReplaceFirst(output, TypesImport, "");
    output := ReplaceAll(output, TypesQualifier, "");
    output := ReplaceAll(output, DocumentNodeImport, "");
    output := ReplaceAll(output, DocumentNodeName, TypedDocumentNodeName);
    output := OutputHeader + output;
  }

  /** Text that holds none of the four patterns passes through the rewrites unchanged. */
  lemma RewrittenUnchanged(t: string)
    requires !Contains(t, TypesImport) && !Contains(t, TypesQualifier)
    requires !Contains(t, DocumentNodeImport) && !Contains(t, DocumentNodeName)
    ensures Rewritten(t) == t
  {
    ReplaceFirstSpec(t, TypesImport, "");
    ReplaceAllUnchanged(t, TypesQualifier, "");
    ReplaceAllUnchanged(t, DocumentNodeImport, "");
    ReplaceAllUnchanged(t, DocumentNodeName, TypedDocumentNodeName);
  }

  /** The character conditions under which the renaming `DocumentNode` -> `TypedDocumentNode` is complete. */
  lemma RenamingPatternsQualify()
    ensures forall k :: 0 <= k < |DocumentNodeName| ==> DocumentNodeName[k] != TypedPrefix[0]
    ensures forall k :: 0 < k < |TypedPrefix| ==> TypedPrefix[k] != DocumentNodeName[0]
    ensures forall k :: 0 < k < |DocumentNodeName| ==> DocumentNodeName[k] != DocumentNodeName[0]
    ensures TypedDocumentNodeName == TypedPrefix + DocumentNodeName
  {
  }

  /**
    The renaming is complete: every `DocumentNode` left in the rewritten text
    is the tail of a `TypedDocumentNode`, so no bare `DocumentNode` survives.
   */
  lemma RenamingIsComplete(t: string, i: nat)
    requires OccursAt(Rewritten(t), DocumentNodeName, i)
    ensures |TypedPrefix| <= i && OccursAt(Rewritten(t), TypedDocumentNodeName, i - |TypedPrefix|)
  {
    var t3 := ReplaceAll(ReplaceAll(ReplaceFirst(t, TypesImport, ""), TypesQualifier, ""), DocumentNodeImport, "");
    assert Rewritten(t) == ReplaceAll(t3, DocumentNodeName, TypedPrefix + DocumentNodeName) by {
      RenamingPatternsQualify();
    }
    RenamingPatternsQualify();
    RenameIsComplete(t3, DocumentNodeName, TypedPrefix, i);
  }

  /**
    The output starts with the header, whose own `TypedDocumentNode` is not
    renamed again: the header is put in front after the rewrites.
   */
  lemma HeaderUntouched(rewritten: string)
    ensures (OutputHeader + rewritten)[..|OutputHeader|] == OutputHeader
    ensures OccursAt(OutputHeader + rewritten, TypedDocumentNodeName, |LintDirective + ImportOpening|)
  {
    var n := |LintDirective + ImportOpening|;
    assert (OutputHeader + rewritten)[n..][..|TypedDocumentNodeName|] == TypedDocumentNodeName;
  }

  /**
    The qualifier removal is one pass: removing an inner `types.` can join
    the text around it into a new `types.`, which is left in place.
   */
  lemma QualifierRemovalIsOnePass()
    ensures Rewritten("ttypes.ypes.") == TypesQualifier
  {
    var s := "ttypes.ypes.";
    TooShortToContain(s, TypesImport);
    ReplaceFirstSpec(s, TypesImport, "");
    TooShortToContain(TypesQualifier, DocumentNodeImport);
    ReplaceAllUnchanged(TypesQualifier, DocumentNodeImport, "");
    TooShortToContain(TypesQualifier, DocumentNodeName);
    ReplaceAllUnchanged(TypesQualifier, DocumentNodeName, TypedDocumentNodeName);
    assert s[1] != TypesQualifier[1];
    assert TypesQualifier <= s[1..];
    assert s[1..][|TypesQualifier|..] == "ypes.";
    TooShortToContain("ypes.", TypesQualifier);
    ReplaceAllUnchanged("ypes.", TypesQualifier, "");
    assert ReplaceAll(s[1..], TypesQualifier, "") == "ypes.";
    assert ReplaceAll(s, TypesQualifier, "") == "t" + ReplaceAll(s[1..], TypesQualifier, "");
    assert "t" + "ypes." == TypesQualifier;
    assert ReplaceFirst(s, TypesImport, "") == s;
    assert ReplaceAll(TypesQualifier, DocumentNodeImport, "") == TypesQualifier;
  }

  /** The scalar mapping the script passes to the TypeScript plugin. */
  function ScriptScalars(): (m: map<string, string>)
    ensures m.Keys == {"Decimal", "Instant", "LocalDate", "LocalDateTime", "LocalTime", "Json", "Uuid", "Vector"}
  {
    map[
      "Decimal" := "number",
      "Instant" := "string",
      "LocalDate" := "string",
      "LocalDateTime" := "string",
      "LocalTime" := "string",
      "Json" := "unknown",
      "Uuid" := "string",
      "Vector" := "unknown"
    ]
  }
}
