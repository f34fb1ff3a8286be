/** Layering of gap specs: operator config under workflow-injected shape. The queue and the
    writer both read specs through these functions. */
module GapSpecs {
  import opened Base
  import opened Vault

  type Specs = map<string, GapSpec>

  function EntryOf(state: map<string, GapEntry>, field: string): GapEntry {
    if field in state then state[field] else GapEntry("", None, false, None, map[], NO_SPEC)
  }

  function SpecOf(specs: Specs, field: string): GapSpec {
    if field in specs then specs[field] else NO_SPEC
  }

  /** mergeWorkflowGapSpec: every non-empty workflow field wins. */
  function Merge(cfg: GapSpec, entry: GapEntry): GapSpec {
    var w := entry.shape;
    GapSpec(
      if w.typ != "" then w.typ else cfg.typ,
      if w.description != "" then w.description else cfg.description,
      if w.fillStrategy != "" then w.fillStrategy else cfg.fillStrategy,
      if w.range != [] then w.range else cfg.range,
      if w.maxLength != 0 then w.maxLength else cfg.maxLength,
      if w.values != [] then w.values else cfg.values,
      if w.kinds != [] then w.kinds else cfg.kinds)
  }

  /** workflowGapEntryHasShape. */
  predicate HasShape(entry: GapEntry) {
    entry.shape.typ != ""
  }

  /** resolveEffectiveGaps: a gap is there when either layer declares it. */
  function Effective(kindGaps: Specs, state: map<string, GapEntry>): Specs {
    map f | f in kindGaps.Keys + state.Keys && (f in kindGaps || HasShape(state[f])) ::
      Merge(SpecOf(kindGaps, f), EntryOf(state, f))
  }
}
