/** The markdown vault file as a value: frontmatter and body of one entity. */
module Vault {
  import opened Base

  /** A value under `data:`. VStrs is a list of strings, VOther any other decoded JSON. */
  datatype Value =
    | VNull
    | VBool(b: bool)
    | VInt(i: int)
    | VStr(s: string)
    | VStrs(items: seq<string>)
    | VOther(repr: nat)

  /** The typed shape of a gap; empty fields mean "not declared". */
  datatype GapSpec = GapSpec(
    typ: string,
    description: string,
    fillStrategy: string,
    range: seq<int>,
    maxLength: int,
    values: seq<string>,
    kinds: seq<string>)

  const NO_SPEC := GapSpec("", "", "", [], 0, [], [])

  const CANONICAL_TYPE := "canonical_type"

  /** Per-field fill metadata; `shape` is what a workflow's add_gap injected inline. */
  datatype GapEntry = GapEntry(
    source: string,
    filledAt: Option<int>,
    deferred: bool,
    deferredAt: Option<int>,
    dataSchema: map<string, string>,
    shape: GapSpec)

  datatype Provenance = Provenance(source: string, fetchedAt: Option<int>, filledAt: Option<int>, ok: bool)

  /** A typed edge between two entity rows. */
  datatype Edge = Edge(typ: string, from: string, to: string)

  /** The frontmatter form, whose tail is the file's own entity. */
  datatype LabelEdge = LabelEdge(typ: string, to: string)

  /** The part of a file that fill calls read and write. */
  datatype Fillable = Fillable(
    data: map<string, Value>,
    summary: string,
    tags: seq<string>,
    gaps: seq<string>,
    gapState: map<string, GapEntry>)

  datatype Entity = Entity(
    id: string,
    kind: string,
    source: seq<string>,
    provenance: seq<Provenance>,
    fill: Fillable,
    notes: seq<string>,
    edges: seq<LabelEdge>,
    cleanContent: string,
    notations: seq<string>,
    aliases: seq<string>,
    cacheExpires: Option<int>,
    attachments: seq<string>,
    dataview: seq<map<string, string>>,
    ugc: bool)

  /** The plugin half of the first `<plugin>/<instance>` source. */
  function PluginName(e: Entity): string {
    if e.source == [] then "" else BeforeSlash(e.source[0])
  }

  function BeforeSlash(s: string): string {
    if s == "" || s[0] == '/' then "" else [s[0]] + BeforeSlash(s[1..])
  }

  // ---------------------------------------------------------------- canonical labels

  const SOURCE_TYPE_KIND := "source-type"

  function IndexOfColon(s: string): (i: nat)
    ensures i <= |s|
    ensures i < |s| ==> s[i] == ':'
    ensures forall j :: 0 <= j < i ==> s[j] != ':'
  {
    if s == "" || s[0] == ':' then 0 else 1 + IndexOfColon(s[1..])
  }

  /** SplitLabelID's kind, or None for an id that is not `<kind>:<slug>`. */
  function LabelKind(id: string): Option<string> {
    var i := IndexOfColon(id);
    if i == 0 || i >= |id| - 1 then None else Some(id[..i])
  }

  lemma {:induction false} LabelKindOfPair(kind: string, slug: string)
    requires kind != "" && forall i :: 0 <= i < |kind| ==> kind[i] != ':'
    ensures LabelKind(kind + ":" + slug) == if slug == "" then None else Some(kind)
  {
    var id := kind + ":" + slug;
    assert id[|kind|] == ':';
    assert forall i :: 0 <= i < |kind| ==> id[i] == kind[i];
    assert IndexOfColon(id) == |kind|;
    assert id[..|kind|] == kind;
  }

  /** A label id is a kind without a colon, a colon and a slug, neither of them empty. */
  lemma LabelKindIff(id: string, kind: string)
    ensures LabelKind(id) == Some(kind) <==>
            && kind != "" && (forall i :: 0 <= i < |kind| ==> kind[i] != ':')
            && |id| > |kind| + 1 && id[..|kind|] == kind && id[|kind|] == ':'
  {
    if kind != "" && (forall i :: 0 <= i < |kind| ==> kind[i] != ':') && |id| > |kind| + 1
       && id[..|kind|] == kind && id[|kind|] == ':' {
      var slug := id[|kind| + 1..];
      assert id == kind + ":" + slug;
      LabelKindOfPair(kind, slug);
    }
  }

  /** The plugin's name is what comes before the first slash of the first source, or all of it. */
  lemma {:induction false} BeforeSlashIs(s: string)
    ensures '/' !in BeforeSlash(s) && BeforeSlash(s) <= s
    ensures |BeforeSlash(s)| < |s| ==> s[|BeforeSlash(s)|] == '/'
  {
    if s == "" || s[0] == '/' {
    } else {
      BeforeSlashIs(s[1..]);
    }
  }
}
