/** The alias table that maps logical SEO fields to the physical column
    names a crawl export may use (seo_app/schema_registry.py). */
module SchemaRegistry {
  import opened Outcomes
  import opened Lists
  import opened Frames

  /** `COLUMN_ALIASES`: each logical field with its candidate columns, most
      preferred first. */
  const ColumnAliases: map<string, seq<string>> := map[
    "url" := ["address", "url"],
    "https" := ["https"],
    "title_length" := ["title_1_length", "title_length"],
    "indexability" := ["indexability", "index_status"],
    "status_code" := ["status_code"],
    "meta_description_length" := ["meta_description_length"],
    "h1_count" := ["h1-1", "h1_count"]
  ]

  /** `COLUMN_ALIASES.get(logical, [])`. */
  function Aliases(logical: string): seq<string> {
    if logical in ColumnAliases then ColumnAliases[logical] else []
  }

  /** Every known field has at least one alias. */
  lemma KnownFieldsHaveAliases(logical: string)
    ensures Aliases(logical) != [] <==> logical in ColumnAliases
  {
  }

  /** The first alias that `present` contains, if any. */
  function FirstPresent(aliases: seq<string>, present: set<string>): (r: Option<string>)
    ensures r.Some? ==> exists i :: 0 <= i < |aliases| && aliases[i] == r.value && r.value in present
                                   && forall j :: 0 <= j < i ==> aliases[j] !in present
    ensures r.None? <==> forall a :: a in aliases ==> a !in present
  {
    match FirstWhere(aliases, (a: string) => a in present)
    case None => None
    case Some(i) => Some(aliases[i])
  }

  /** `resolve_column`: the first alias of `logical`, in table order, that is
      a column of the frame; `KeyError("Column not found: …")` when there is
      none, which includes a logical name the table does not know. */
  function ResolveColumn(columns: seq<string>, logical: string): (r: Result<string, Failure>)
    ensures r.Success? ==>
      && r.value in Aliases(logical) && r.value in columns
      && exists i :: 0 <= i < |Aliases(logical)| && Aliases(logical)[i] == r.value
                     && forall j :: 0 <= j < i ==> Aliases(logical)[j] !in columns
    ensures r.Failure? <==> forall a :: a in Aliases(logical) ==> a !in columns
    ensures r.Failure? ==> r.error == KeyError("Column not found: " + logical)
  {
    match FirstPresent(Aliases(logical), ToSet(columns))
    case Some(c) => Success(c)
    case None => Failure(KeyError("Column not found: " + logical))
  }

  /** A name the table does not know never resolves. */
  lemma UnknownLogicalFails(columns: seq<string>, logical: string)
    requires logical !in ColumnAliases
    ensures ResolveColumn(columns, logical) == Failure(KeyError("Column not found: " + logical))
  {
  }

  /** Table order is priority order: with both `address` and `url` present,
      the logical `url` resolves to `address`. */
  lemma AddressBeforeUrl(columns: seq<string>)
    requires "address" in columns && "url" in columns
    ensures ResolveColumn(columns, "url") == Success("address")
  {
    assert Aliases("url") == ["address", "url"];
  }
}
