/** Schema discovery over the loaded sheets (seo_app/schema_discovery.py). */
module SchemaDiscovery {
  import opened Lists
  import opened Frames
  import opened SchemaResolver
  import SchemaRegistry

  /** `discover_schema`: each sheet name with the set of its columns. */
  function DiscoverSchema(sheets: map<string, Frame>): (r: Schema)
    ensures r.Keys == sheets.Keys
    ensures forall name :: name in r ==> forall c :: c in r[name] <==> c in sheets[name].columns
  {
    map name | name in sheets :: ToSet(sheets[name].columns)
  }

  /** No sheets, no schema. */
  lemma EmptyWorkbook()
    ensures DiscoverSchema(map[]) == map[]
  {
  }

  /** Resolving against the discovered schema picks the column that resolving
      against the sheet's own columns picks. */
  lemma DiscoveredResolution(sheets: map<string, Frame>, sheet: string, field: string)
    requires sheet in sheets
    ensures var viaSchema := ResolveField(DiscoverSchema(sheets), sheet, field);
            var viaFrame := SchemaRegistry.ResolveColumn(sheets[sheet].columns, field);
      && (viaSchema.Success? <==> viaFrame.Success?)
      && (viaSchema.Success? ==> viaSchema.value == viaFrame.value)
  {
    AgreesWithResolveColumn(DiscoverSchema(sheets), sheet, sheets[sheet].columns, field);
  }
}
