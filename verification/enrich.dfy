/** The observation enricher of the version-4 client (`get_data`): coded
    observation rows are joined with the measure and dimension code tables
    and their group tables. Every join is a shallow overlay in which the
    metadata value wins a key collision. */
module Enricher {
  import opened Wrappers
  import opened Values
  import opened Text

  /** The metadata `get_metadata` returns, resource name to rows. */
  type Tables = map<string, seq<Row>>

  /** The keyword arguments of `get_data` that steer the joins. `None` for
      `measure_vars` or `dimension_vars` is kept apart from the empty list:
      both are falsy, but iterating `None` over a code raises `TypeError`.
      The group lists are only iterated when truthy, so there `None` is the
      empty list. */
  datatype Config = Config(
    measureVars: Option<seq<string>>,
    includeMeasureCodeId: bool,
    measureGroupVars: seq<string>,
    includeMeasureGroupId: bool,
    dimensionVars: Option<seq<string>>,
    includeDimensionCodeId: bool,
    dimensionGroupVars: seq<string>,
    includeDimensionGroupId: bool)

  const DefaultConfig := Config(Some(["Title", "Unit"]), true, ["Title"], true, Some(["Title"]), true, ["Title"], false)

  // ---------------------------------------------------------------------
  // Building blocks

  /** `_lookup_dict`: overlay the code record the row's `key` value selects
      (nothing when the code is unknown), then delete `key` if asked. */
  function Overlay(d: Row, lookup: Lookup, key: string, dropKey: bool): (r: Row)
    requires key in d
    ensures var rec := if d[key] in lookup then lookup[d[key]] else map[];
            && r.Keys == (d.Keys + rec.Keys) - (if dropKey then {key} else {})
            && (forall k <- r :: r[k] == if k in rec then rec[k] else d[k])
    ensures d[key] !in lookup ==> r == if dropKey then d - {key} else d
    ensures key in r <==> !dropKey
  {
    var merged := d + (if d[key] in lookup then lookup[d[key]] else map[]);
    if dropKey then merged - {key} else merged
  }

  /** `_lookup_dict` applied to every row. */
  function OverlayAll(obs: seq<Row>, lookup: Lookup, key: string, dropKey: bool): (r: seq<Row>)
    requires forall d <- obs :: key in d
    ensures |r| == |obs|
    ensures forall i | 0 <= i < |obs| :: r[i] == Overlay(obs[i], lookup, key, dropKey)
  {
    seq(|obs|, i requires 0 <= i < |obs| => Overlay(obs[i], lookup, key, dropKey))
  }

  /** `_drop_key_value` applied to every row. */
  function DropAll(obs: seq<Row>, key: string): (r: seq<Row>)
    requires forall d <- obs :: key in d
    ensures |r| == |obs|
    ensures forall i | 0 <= i < |obs| :: r[i] == obs[i] - {key}
  {
    seq(|obs|, i requires 0 <= i < |obs| => obs[i] - {key})
  }

  /** `{prefix + k: d[k] for k in vars}`. */
  function Prefixed(d: Row, prefix: string, vars: seq<string>): (r: Row)
    requires forall k <- vars :: k in d
    ensures r.Keys == set k <- vars :: prefix + k
    ensures forall k <- vars :: r[prefix + k] == d[k]
    decreases |vars|
  {
    if vars == [] then map[]
    else
      var rest := Prefixed(d, prefix, vars[1..]);
      forall k <- vars[1..] | prefix + k == prefix + vars[0]
        ensures k == vars[0]
      {
        PrefixCancel(prefix, k, vars[0]);
      }
      assert vars == [vars[0]] + vars[1..];
      rest[prefix + vars[0] := d[vars[0]]]
  }

  /** A code row holds every field the record is built from. */
  predicate CodesOk(codes: seq<Row>, keyField: string, vars: seq<string>, groupField: Option<string>) {
    forall d <- codes :: keyField in d && (forall k <- vars :: k in d) && (groupField.Some? ==> groupField.value in d)
  }

  /** The record one code contributes: its `vars` renamed with `prefix`, and,
      when group labels are wanted, its group identifier as `prefix + "GroupID"`
      (set after the renamed fields, so it wins a clash). */
  function CodeRecord(d: Row, prefix: string, vars: seq<string>, groupField: Option<string>): (r: Row)
    requires forall k <- vars :: k in d
    requires groupField.Some? ==> groupField.value in d
    ensures r.Keys == (set k <- vars :: prefix + k) + (if groupField.Some? then {prefix + "GroupID"} else {})
    ensures forall k <- vars :: k != "GroupID" || groupField.None? ==> r[prefix + k] == d[k]
    ensures groupField.Some? ==> r[prefix + "GroupID"] == d[groupField.value]
  {
    var fields := Prefixed(d, prefix, vars);
    forall k <- vars | prefix + k == prefix + "GroupID"
      ensures k == "GroupID"
    {
      PrefixCancel(prefix, k, "GroupID");
    }
    if groupField.Some? then fields[prefix + "GroupID" := d[groupField.value]] else fields
  }

  /** The lookup built from a code table: identifier to code record. */
  function CodeLookup(codes: seq<Row>, keyField: string, prefix: string, vars: seq<string>, groupField: Option<string>)
    : (r: Lookup)
    requires CodesOk(codes, keyField, vars, groupField)
    ensures r.Keys == set d <- codes :: d[keyField]
    ensures forall id <- r :: exists d <- codes :: d[keyField] == id && r[id] == CodeRecord(d, prefix, vars, groupField)
  {
    var index := IndexBy(codes, keyField);
    map id | id in index :: CodeRecord(index[id], prefix, vars, groupField)
  }

  /** The last code with a given identifier is the one that is joined. */
  lemma CodeLookupLast(codes: seq<Row>, keyField: string, prefix: string, vars: seq<string>, groupField: Option<string>, i: nat)
    requires CodesOk(codes, keyField, vars, groupField)
    requires i < |codes|
    requires forall j | i < j < |codes| :: codes[j][keyField] != codes[i][keyField]
    ensures CodeLookup(codes, keyField, prefix, vars, groupField)[codes[i][keyField]]
         == CodeRecord(codes[i], prefix, vars, groupField)
  {
    IndexByLast(codes, keyField, i);
  }

  // ---------------------------------------------------------------------
  // Measures

  /** Whether `get_data` joins measure codes at all (`measure_vars or measure_group_vars`). */
  predicate JoinsMeasures(cfg: Config) {
    MeasureVars(cfg) != [] || cfg.measureGroupVars != []
  }

  /** The measure variables; `None` names none. */
  function MeasureVars(cfg: Config): seq<string> {
    cfg.measureVars.GetOr([])
  }

  /** The code field carried into the record when group labels are wanted. */
  function MeasureGroupField(cfg: Config): Option<string> {
    if cfg.measureGroupVars != [] then Some("MeasureGroupID") else None
  }

  /** The measure codes can be turned into records: the table exists, holds
      every field the records need, and is empty if `measure_vars` is `None`. */
  predicate MeasureCodesOk(meta: Tables, cfg: Config) {
    && "MeasureCodes" in meta
    && (cfg.measureVars.None? ==> meta["MeasureCodes"] == [])
    && CodesOk(meta["MeasureCodes"], "Identifier", MeasureVars(cfg), MeasureGroupField(cfg))
  }

  function MeasureLookup(meta: Tables, cfg: Config): Lookup
    requires MeasureCodesOk(meta, cfg)
  {
    CodeLookup(meta["MeasureCodes"], "Identifier", "Measure", MeasureVars(cfg), MeasureGroupField(cfg))
  }

  /** Whether the measure-group join runs. */
  predicate JoinsMeasureGroups(meta: Tables, cfg: Config) {
    "MeasureGroups" in meta && cfg.measureGroupVars != []
  }

  function MeasureGroupLookup(meta: Tables, cfg: Config): Lookup
    requires "MeasureGroups" in meta && CodesOk(meta["MeasureGroups"], "ID", cfg.measureGroupVars, None)
  {
    CodeLookup(meta["MeasureGroups"], "ID", "MeasureGroup", cfg.measureGroupVars, None)
  }

  /** The measure-code join of one batch of rows. */
  function JoinMeasureCodes(obs: seq<Row>, meta: Tables, cfg: Config): (r: seq<Row>)
    requires MeasureCodesOk(meta, cfg)
    requires forall d <- obs :: "Measure" in d
    ensures |r| == |obs|
  {
    OverlayAll(obs, MeasureLookup(meta, cfg), "Measure", !cfg.includeMeasureCodeId)
  }

  /** The measure step raises no `KeyError`: the code tables hold every field
      the records need, every row has a `Measure`, and every row reaching the
      group join has a `MeasureGroupID`. */
  predicate MeasuresOk(obs: seq<Row>, meta: Tables, cfg: Config) {
    if JoinsMeasures(cfg) then
      && MeasureCodesOk(meta, cfg)
      && (forall d <- obs :: "Measure" in d)
      && (JoinsMeasureGroups(meta, cfg) ==>
            && CodesOk(meta["MeasureGroups"], "ID", cfg.measureGroupVars, None)
            && forall d <- JoinMeasureCodes(obs, meta, cfg) :: "MeasureGroupID" in d)
    else
      !cfg.includeMeasureCodeId ==> forall d <- obs :: "Measure" in d
  }

  /** The measure step of `get_data`: the code join, then the group join,
      or, when no measure labels are wanted, just the removal of `Measure`. */
  function JoinMeasures(obs: seq<Row>, meta: Tables, cfg: Config): (r: seq<Row>)
    requires MeasuresOk(obs, meta, cfg)
    ensures |r| == |obs|
  {
    if JoinsMeasures(cfg) then
      var coded := JoinMeasureCodes(obs, meta, cfg);
      if JoinsMeasureGroups(meta, cfg) then
        OverlayAll(coded, MeasureGroupLookup(meta, cfg), "MeasureGroupID", !cfg.includeMeasureGroupId)
      else coded
    else if !cfg.includeMeasureCodeId then DropAll(obs, "Measure")
    else obs
  }

  /** After the measure step a row keeps its `Measure` field exactly when
      `include_measure_code_id` is set, also when no label is joined at all. */
  lemma MeasureKeptIffIncluded(obs: seq<Row>, meta: Tables, cfg: Config, i: nat)
    requires MeasuresOk(obs, meta, cfg)
    requires i < |obs|
    ensures "Measure" in JoinMeasures(obs, meta, cfg)[i] <==> cfg.includeMeasureCodeId && "Measure" in obs[i]
  {
    if JoinsMeasures(cfg) {
      var coded := JoinMeasureCodes(obs, meta, cfg);
      assert "Measure" in coded[i] <==> cfg.includeMeasureCodeId;
      if JoinsMeasureGroups(meta, cfg) {
        var groups := MeasureGroupLookup(meta, cfg);
        var d := coded[i];
        if d["MeasureGroupID"] in groups {
          assert forall k <- groups[d["MeasureGroupID"]] :: |k| >= |"MeasureGroup"|;
        }
      }
    }
  }

  /** A code join keyed on `key` whose record names are `key` plus a
      variable: when the row's code is in the table, field `key + k` is in the
      result exactly when the record or the row supplies it, and it is not
      the code field itself being dropped. */
  lemma CodeJoinFields(d: Row, codes: seq<Row>, keyField: string, key: string, vars: seq<string>,
                       groupField: Option<string>, dropKey: bool, k: string)
    requires CodesOk(codes, keyField, vars, groupField)
    requires key in d
    requires exists c <- codes :: c[keyField] == d[key]
    ensures key + k in Overlay(d, CodeLookup(codes, keyField, key, vars, groupField), key, dropKey)
        <==> (k in vars || (groupField.Some? && k == "GroupID") || key + k in d) && (k != "" || !dropKey)
  {
    var lookup := CodeLookup(codes, keyField, key, vars, groupField);
    var c :| c in codes && c[keyField] == d[key];
    assert d[key] in lookup;
    var c' :| c' in codes && c'[keyField] == d[key] && lookup[d[key]] == CodeRecord(c', key, vars, groupField);
    RecordFieldNames(c', key, vars, groupField, k);
    OverlayField(d, lookup, key, dropKey, k);
  }

  /** With the row's code in the lookup, field `key + k` comes from the
      record or the row, unless it is the code field being dropped. */
  lemma OverlayField(d: Row, lookup: Lookup, key: string, dropKey: bool, k: string)
    requires key in d && d[key] in lookup
    ensures key + k in Overlay(d, lookup, key, dropKey)
        <==> (key + k in lookup[d[key]] || key + k in d) && (k != "" || !dropKey)
  {
    assert key + k == key <==> k == "" by {
      if key + k == key {
        assert |key + k| == |key|;
      }
    }
  }

  /** A code record holds `prefix + k` exactly when `k` is a variable, or
      `GroupID` with group labels wanted. */
  lemma RecordFieldNames(d: Row, prefix: string, vars: seq<string>, groupField: Option<string>, k: string)
    requires forall v <- vars :: v in d
    requires groupField.Some? ==> groupField.value in d
    ensures prefix + k in CodeRecord(d, prefix, vars, groupField) <==> k in vars || (groupField.Some? && k == "GroupID")
  {
    if prefix + k in CodeRecord(d, prefix, vars, groupField) && k !in vars && !(groupField.Some? && k == "GroupID") {
      if groupField.Some? && prefix + k == prefix + "GroupID" {
        PrefixCancel(prefix, k, "GroupID");
      } else {
        var v :| v in vars && prefix + k == prefix + v;
        PrefixCancel(prefix, k, v);
      }
    }
  }

  // ---------------------------------------------------------------------
  // Dimensions

  /** Whether `get_data` joins dimension codes (`dimension_vars or dimension_group_vars`). */
  predicate JoinsDimensions(cfg: Config) {
    DimensionVars(cfg) != [] || cfg.dimensionGroupVars != []
  }

  /** The dimension variables; `None` names none. */
  function DimensionVars(cfg: Config): seq<string> {
    cfg.dimensionVars.GetOr([])
  }

  /** The `Dimensions` resource exists and every entry has an identifier:
      what `[dim["Identifier"] for dim in meta['Dimensions']]` needs. */
  predicate DimensionsListed(meta: Tables) {
    "Dimensions" in meta && forall d: Row <- meta["Dimensions"] :: "Identifier" in d
  }

  /** The `Dimensions` resource exists and names every dimension by a string identifier. */
  predicate DimensionsDeclared(meta: Tables) {
    "Dimensions" in meta && forall d: Row <- meta["Dimensions"] :: "Identifier" in d && d["Identifier"].Str?
  }

  /** The dimension names, in the order of the `Dimensions` resource. */
  function DimensionNames(meta: Tables): (r: seq<string>)
    requires DimensionsDeclared(meta)
    ensures |r| == |meta["Dimensions"]|
    ensures forall i | 0 <= i < |r| :: Str(r[i]) == meta["Dimensions"][i]["Identifier"]
  {
    var dims: seq<Row> := meta["Dimensions"];
    seq(|dims|, i requires 0 <= i < |dims| => dims[i]["Identifier"].s)
  }

  /** The code field carried into the record when group labels are wanted. */
  function DimensionGroupField(cfg: Config): Option<string> {
    if cfg.dimensionGroupVars != [] then Some("DimensionGroupID") else None
  }

  /** The codes of `dim` can be turned into records: the table exists, holds
      every field the records need, and is empty if `dimension_vars` is `None`. */
  predicate DimensionCodesOk(meta: Tables, cfg: Config, dim: string) {
    && dim + "Codes" in meta
    && (cfg.dimensionVars.None? ==> meta[dim + "Codes"] == [])
    && CodesOk(meta[dim + "Codes"], "Identifier", DimensionVars(cfg), DimensionGroupField(cfg))
  }

  /** The code join of one dimension. */
  function JoinDimensionCodes(obs: seq<Row>, meta: Tables, cfg: Config, dim: string): (r: seq<Row>)
    requires DimensionCodesOk(meta, cfg, dim)
    requires forall d <- obs :: dim in d
    ensures |r| == |obs|
  {
    var lookup := CodeLookup(meta[dim + "Codes"], "Identifier", dim, DimensionVars(cfg), DimensionGroupField(cfg));
    OverlayAll(obs, lookup, dim, !cfg.includeDimensionCodeId)
  }

  /** Whether the group join of a dimension runs. */
  predicate JoinsDimensionGroups(meta: Tables, cfg: Config, dim: string) {
    cfg.dimensionGroupVars != [] && dim + "Groups" in meta
  }

  /** One dimension's joins raise no `KeyError`. */
  predicate DimensionOk(obs: seq<Row>, meta: Tables, cfg: Config, dim: string) {
    && DimensionCodesOk(meta, cfg, dim)
    && (forall d <- obs :: dim in d)
    && (JoinsDimensionGroups(meta, cfg, dim) ==>
          && CodesOk(meta[dim + "Groups"], "ID", cfg.dimensionGroupVars, None)
          && forall d <- JoinDimensionCodes(obs, meta, cfg, dim) :: dim + "GroupID" in d)
  }

  /** The joins of one dimension: its codes, then its groups when group
      labels are wanted and the `<dim>Groups` resource exists. */
  function JoinDimension(obs: seq<Row>, meta: Tables, cfg: Config, dim: string): (r: seq<Row>)
    requires DimensionOk(obs, meta, cfg, dim)
    ensures |r| == |obs|
    ensures !JoinsDimensionGroups(meta, cfg, dim) ==> r == JoinDimensionCodes(obs, meta, cfg, dim)
  {
    var coded := JoinDimensionCodes(obs, meta, cfg, dim);
    if JoinsDimensionGroups(meta, cfg, dim) then
      var groups := CodeLookup(meta[dim + "Groups"], "ID", dim + "Group", cfg.dimensionGroupVars, None);
      OverlayAll(coded, groups, dim + "GroupID", !cfg.includeDimensionGroupId)
    else coded
  }

  /** After its own join a row keeps the dimension's code field exactly when
      `include_dimension_code_id` is set. */
  lemma DimensionKeptIffIncluded(obs: seq<Row>, meta: Tables, cfg: Config, dim: string, i: nat)
    requires DimensionOk(obs, meta, cfg, dim)
    requires i < |obs|
    ensures dim in JoinDimension(obs, meta, cfg, dim)[i] <==> cfg.includeDimensionCodeId
  {
    var coded := JoinDimensionCodes(obs, meta, cfg, dim);
    assert dim in coded[i] <==> cfg.includeDimensionCodeId;
    if JoinsDimensionGroups(meta, cfg, dim) {
      var groups := CodeLookup(meta[dim + "Groups"], "ID", dim + "Group", cfg.dimensionGroupVars, None);
      var d := coded[i];
      assert dim != dim + "GroupID" by { assert |dim + "GroupID"| > |dim|; }
      if d[dim + "GroupID"] in groups {
        assert forall k <- groups[d[dim + "GroupID"]] :: |k| > |dim|;
      }
    }
  }

  /** Every dimension in turn raises no `KeyError`. */
  predicate DimensionsOk(obs: seq<Row>, meta: Tables, cfg: Config, dims: seq<string>)
    decreases |dims|
  {
    dims == [] ||
      (DimensionOk(obs, meta, cfg, dims[0]) &&
       DimensionsOk(JoinDimension(obs, meta, cfg, dims[0]), meta, cfg, dims[1..]))
  }

  /** The dimension loop of `get_data`: each dimension joined in the order given. */
  function JoinDimensions(obs: seq<Row>, meta: Tables, cfg: Config, dims: seq<string>): (r: seq<Row>)
    requires DimensionsOk(obs, meta, cfg, dims)
    ensures |r| == |obs|
    decreases |dims|
  {
    if dims == [] then obs
    else JoinDimensions(JoinDimension(obs, meta, cfg, dims[0]), meta, cfg, dims[1..])
  }

  /** Joining two runs of dimensions one after the other is the same as
      joining their concatenation, and it fails exactly when that does. */
  lemma {:induction false} JoinDimensionsAppend(obs: seq<Row>, meta: Tables, cfg: Config, dims1: seq<string>, dims2: seq<string>)
    ensures DimensionsOk(obs, meta, cfg, dims1 + dims2) <==>
              DimensionsOk(obs, meta, cfg, dims1) && DimensionsOk(JoinDimensions(obs, meta, cfg, dims1), meta, cfg, dims2)
    ensures DimensionsOk(obs, meta, cfg, dims1 + dims2) ==>
              JoinDimensions(obs, meta, cfg, dims1 + dims2)
                == JoinDimensions(JoinDimensions(obs, meta, cfg, dims1), meta, cfg, dims2)
    decreases |dims1|
  {
    if dims1 == [] {
      assert dims1 + dims2 == dims2;
    } else {
      assert (dims1 + dims2)[0] == dims1[0];
      assert (dims1 + dims2)[1..] == dims1[1..] + dims2;
      if DimensionOk(obs, meta, cfg, dims1[0]) {
        JoinDimensionsAppend(JoinDimension(obs, meta, cfg, dims1[0]), meta, cfg, dims1[1..], dims2);
      }
    }
  }

  /** Without labels and without code identifiers every dimension's field is
      deleted from every observation; `del` raises `KeyError` on a missing
      field, and so on a dimension named twice. With no observations
      nothing is deleted and nothing can fail. */
  predicate DropsOk(obs: seq<Row>, dims: seq<string>) {
    && (obs != [] ==> forall i, j | 0 <= i < j < |dims| :: dims[i] != dims[j])
    && (forall d <- obs, dim <- dims :: dim in d)
  }

  function DropDimensions(obs: seq<Row>, dims: seq<string>): (r: seq<Row>)
    requires DropsOk(obs, dims)
    ensures |r| == |obs|
    ensures forall i | 0 <= i < |obs| :: r[i] == obs[i] - (set dim <- dims)
    decreases |dims|
  {
    if dims == [] then obs
    else
      var dropped := DropAll(obs, dims[0]);
      DropsOkTail(obs, dims);
      DimensionSetSplit(dims);
      DropDimensions(dropped, dims[1..])
  }

  /** Once the first dimension is dropped, the rest can still be. */
  lemma DropsOkTail(obs: seq<Row>, dims: seq<string>)
    requires DropsOk(obs, dims) && dims != []
    ensures DropsOk(DropAll(obs, dims[0]), dims[1..])
  {
    var dropped := DropAll(obs, dims[0]);
    forall d <- dropped, dim <- dims[1..] ensures dim in d {
      var i :| 0 <= i < |dropped| && dropped[i] == d;
      var j :| 0 <= j < |dims[1..]| && dims[1..][j] == dim;
      assert dims[j + 1] != dims[0];
    }
  }

  lemma DimensionSetSplit(dims: seq<string>)
    requires dims != []
    ensures (set dim <- dims) == {dims[0]} + (set dim <- dims[1..])
  {
    assert dims == [dims[0]] + dims[1..];
  }

  // ---------------------------------------------------------------------
  // The whole enricher

  /** The dimension step raises no `KeyError`. */
  predicate DimensionStepOk(obs: seq<Row>, meta: Tables, cfg: Config) {
    if JoinsDimensions(cfg) then DimensionsDeclared(meta) && DimensionsOk(obs, meta, cfg, DimensionNames(meta))
    else if !cfg.includeDimensionCodeId then
      if obs == [] then DimensionsListed(meta) else DimensionsDeclared(meta) && DropsOk(obs, DimensionNames(meta))
    else true
  }

  function JoinDimensionStep(obs: seq<Row>, meta: Tables, cfg: Config): (r: seq<Row>)
    requires DimensionStepOk(obs, meta, cfg)
    ensures |r| == |obs|
  {
    if JoinsDimensions(cfg) then JoinDimensions(obs, meta, cfg, DimensionNames(meta))
    else if !cfg.includeDimensionCodeId then
      if obs == [] then obs else DropDimensions(obs, DimensionNames(meta))
    else obs
  }

  /** The joins of `get_data` raise no `KeyError` on these observations. */
  predicate EnrichOk(obs: seq<Row>, meta: Tables, cfg: Config) {
    MeasuresOk(obs, meta, cfg) && DimensionStepOk(JoinMeasures(obs, meta, cfg), meta, cfg)
  }

  /** The drop branch of the dimension step, in terms of the `Dimensions`
      resource itself: it succeeds exactly when every entry has an
      identifier and, if there is an observation at all, the identifiers are
      distinct strings that every observation holds; each observation then
      loses exactly the listed fields and keeps every other one. */
  lemma DropStep(obs: seq<Row>, meta: Tables, cfg: Config)
    requires !JoinsDimensions(cfg) && !cfg.includeDimensionCodeId
    ensures DimensionStepOk(obs, meta, cfg) <==>
              && DimensionsListed(meta)
              && (obs != [] ==>
                    var ds: seq<Row> := meta["Dimensions"];
                    && (forall i | 0 <= i < |ds| :: ds[i]["Identifier"].Str? && forall d <- obs :: ds[i]["Identifier"].s in d)
                    && (forall i, j | 0 <= i < j < |ds| :: ds[i]["Identifier"] != ds[j]["Identifier"]))
    ensures DimensionStepOk(obs, meta, cfg) ==>
              forall i, k | 0 <= i < |obs| ::
                && (k in JoinDimensionStep(obs, meta, cfg)[i] <==>
                      k in obs[i] && forall e <- meta["Dimensions"] :: e["Identifier"] != Str(k))
                && (k in JoinDimensionStep(obs, meta, cfg)[i] ==> JoinDimensionStep(obs, meta, cfg)[i][k] == obs[i][k])
  {
    if obs != [] && DimensionsListed(meta) {
      var ds: seq<Row> := meta["Dimensions"];
      if forall i | 0 <= i < |ds| :: ds[i]["Identifier"].Str? {
        assert DimensionsDeclared(meta) by {
          forall e: Row <- ds ensures e["Identifier"].Str? {
            var i :| 0 <= i < |ds| && ds[i] == e;
          }
        }
        DropNamesListed(meta);
        if DimensionStepOk(obs, meta, cfg) {
          var names := DimensionNames(meta);
          var r := JoinDimensionStep(obs, meta, cfg);
          forall i, k | 0 <= i < |obs| ensures k in r[i] <==> k in obs[i] && forall e <- ds :: e["Identifier"] != Str(k) {
            assert r[i] == obs[i] - (set dim <- names);
            assert k in (set dim <- names) <==> k in names;
          }
        }
      }
    }
  }

  /** The dimension names are the listed identifiers. */
  lemma DropNamesListed(meta: Tables)
    requires DimensionsDeclared(meta)
    ensures forall k :: k in DimensionNames(meta) <==> exists e <- meta["Dimensions"] :: e["Identifier"] == Str(k)
  {
    var names := DimensionNames(meta);
    var ds: seq<Row> := meta["Dimensions"];
    forall k ensures k in names <==> exists e <- ds :: e["Identifier"] == Str(k) {
      if k in names {
        var i :| 0 <= i < |names| && names[i] == k;
        assert ds[i] in ds && ds[i]["Identifier"] == Str(k);
      }
      if exists e <- ds :: e["Identifier"] == Str(k) {
        var e :| e in ds && e["Identifier"] == Str(k);
        var i :| 0 <= i < |ds| && ds[i] == e;
        assert names[i] == k;
      }
    }
  }

  /** The observations `get_data` returns: measure step, then dimension step. */
  function Enrich(obs: seq<Row>, meta: Tables, cfg: Config): (r: seq<Row>)
    requires EnrichOk(obs, meta, cfg)
    ensures |r| == |obs|
  {
    JoinDimensionStep(JoinMeasures(obs, meta, cfg), meta, cfg)
  }

  /** Every dimension a successful loop passes had a usable code table. */
  lemma {:induction false} DimensionsOkCodes(obs: seq<Row>, meta: Tables, cfg: Config, dims: seq<string>, i: nat)
    requires DimensionsOk(obs, meta, cfg, dims) && i < |dims|
    ensures DimensionCodesOk(meta, cfg, dims[i])
    decreases i
  {
    if i > 0 {
      DimensionsOkCodes(JoinDimension(obs, meta, cfg, dims[0]), meta, cfg, dims[1..], i - 1);
    }
  }

  /** `measure_vars=None` with group labels wanted: the measure join runs,
      and the first measure code it meets iterates `None`, so the joins fail
      whatever the observations. */
  lemma NoneMeasureVarsFail(obs: seq<Row>, meta: Tables, cfg: Config)
    requires cfg.measureVars.None? && cfg.measureGroupVars != []
    requires "MeasureCodes" in meta && meta["MeasureCodes"] != []
    ensures !EnrichOk(obs, meta, cfg)
  {
  }

  /** `dimension_vars=None` with group labels wanted fails in the same way on
      the first dimension whose code table has a row. */
  lemma NoneDimensionVarsFail(obs: seq<Row>, meta: Tables, cfg: Config, i: nat)
    requires cfg.dimensionVars.None? && cfg.dimensionGroupVars != []
    requires DimensionsDeclared(meta) && i < |meta["Dimensions"]|
    requires var dim := DimensionNames(meta)[i]; dim + "Codes" in meta && meta[dim + "Codes"] != []
    ensures !EnrichOk(obs, meta, cfg)
  {
    if EnrichOk(obs, meta, cfg) {
      DimensionsOkCodes(JoinMeasures(obs, meta, cfg), meta, cfg, DimensionNames(meta), i);
    }
  }

  // ---------------------------------------------------------------------
  // Observations are enriched one by one

  lemma OverlayAllSplit(a: seq<Row>, b: seq<Row>, lookup: Lookup, key: string, dropKey: bool)
    requires forall d <- a + b :: key in d
    ensures OverlayAll(a + b, lookup, key, dropKey) == OverlayAll(a, lookup, key, dropKey) + OverlayAll(b, lookup, key, dropKey)
  {
    assert forall d <- a :: d in a + b;
    assert forall d <- b :: d in a + b;
  }

  lemma DropAllSplit(a: seq<Row>, b: seq<Row>, key: string)
    requires forall d <- a + b :: key in d
    ensures DropAll(a + b, key) == DropAll(a, key) + DropAll(b, key)
  {
    assert forall d <- a :: d in a + b;
    assert forall d <- b :: d in a + b;
  }

  lemma MeasureCodesSplit(a: seq<Row>, b: seq<Row>, meta: Tables, cfg: Config)
    requires MeasureCodesOk(meta, cfg)
    requires forall d <- a + b :: "Measure" in d
    ensures JoinMeasureCodes(a + b, meta, cfg) == JoinMeasureCodes(a, meta, cfg) + JoinMeasureCodes(b, meta, cfg)
  {
    OverlayAllSplit(a, b, MeasureLookup(meta, cfg), "Measure", !cfg.includeMeasureCodeId);
  }

  lemma MeasuresOkSplit(a: seq<Row>, b: seq<Row>, meta: Tables, cfg: Config)
    ensures MeasuresOk(a + b, meta, cfg) <==> MeasuresOk(a, meta, cfg) && MeasuresOk(b, meta, cfg)
  {
    var all := forall d <- a + b :: "Measure" in d;
    assert all <==> (forall d <- a :: "Measure" in d) && (forall d <- b :: "Measure" in d);
    if JoinsMeasures(cfg) && MeasureCodesOk(meta, cfg) && all && JoinsMeasureGroups(meta, cfg) {
      MeasureCodesSplit(a, b, meta, cfg);
      var ca := JoinMeasureCodes(a, meta, cfg);
      var cb := JoinMeasureCodes(b, meta, cfg);
      assert (forall d <- ca + cb :: "MeasureGroupID" in d)
         <==> (forall d <- ca :: "MeasureGroupID" in d) && (forall d <- cb :: "MeasureGroupID" in d);
    }
  }

  lemma MeasuresSplit(a: seq<Row>, b: seq<Row>, meta: Tables, cfg: Config)
    ensures MeasuresOk(a + b, meta, cfg) <==> MeasuresOk(a, meta, cfg) && MeasuresOk(b, meta, cfg)
    ensures MeasuresOk(a + b, meta, cfg) ==>
              JoinMeasures(a + b, meta, cfg) == JoinMeasures(a, meta, cfg) + JoinMeasures(b, meta, cfg)
  {
    MeasuresOkSplit(a, b, meta, cfg);
    if MeasuresOk(a + b, meta, cfg) {
      if JoinsMeasures(cfg) {
        MeasureCodesSplit(a, b, meta, cfg);
        if JoinsMeasureGroups(meta, cfg) {
          var ca := JoinMeasureCodes(a, meta, cfg);
          var cb := JoinMeasureCodes(b, meta, cfg);
          OverlayAllSplit(ca, cb, MeasureGroupLookup(meta, cfg), "MeasureGroupID", !cfg.includeMeasureGroupId);
        }
      } else if !cfg.includeMeasureCodeId {
        DropAllSplit(a, b, "Measure");
      }
    }
  }

  lemma DimensionCodesSplit(a: seq<Row>, b: seq<Row>, meta: Tables, cfg: Config, dim: string)
    requires DimensionCodesOk(meta, cfg, dim)
    requires forall d <- a + b :: dim in d
    ensures JoinDimensionCodes(a + b, meta, cfg, dim) == JoinDimensionCodes(a, meta, cfg, dim) + JoinDimensionCodes(b, meta, cfg, dim)
  {
    var lookup := CodeLookup(meta[dim + "Codes"], "Identifier", dim, DimensionVars(cfg), DimensionGroupField(cfg));
    OverlayAllSplit(a, b, lookup, dim, !cfg.includeDimensionCodeId);
  }

  lemma DimensionOkSplit(a: seq<Row>, b: seq<Row>, meta: Tables, cfg: Config, dim: string)
    ensures DimensionOk(a + b, meta, cfg, dim) <==> DimensionOk(a, meta, cfg, dim) && DimensionOk(b, meta, cfg, dim)
  {
    var all := forall d <- a + b :: dim in d;
    assert all <==> (forall d <- a :: dim in d) && (forall d <- b :: dim in d);
    if DimensionCodesOk(meta, cfg, dim) && all && JoinsDimensionGroups(meta, cfg, dim) {
      DimensionCodesSplit(a, b, meta, cfg, dim);
      var ca := JoinDimensionCodes(a, meta, cfg, dim);
      var cb := JoinDimensionCodes(b, meta, cfg, dim);
      assert (forall d <- ca + cb :: dim + "GroupID" in d)
         <==> (forall d <- ca :: dim + "GroupID" in d) && (forall d <- cb :: dim + "GroupID" in d);
    }
  }

  lemma DimensionSplit(a: seq<Row>, b: seq<Row>, meta: Tables, cfg: Config, dim: string)
    ensures DimensionOk(a + b, meta, cfg, dim) <==> DimensionOk(a, meta, cfg, dim) && DimensionOk(b, meta, cfg, dim)
    ensures DimensionOk(a + b, meta, cfg, dim) ==>
              JoinDimension(a + b, meta, cfg, dim) == JoinDimension(a, meta, cfg, dim) + JoinDimension(b, meta, cfg, dim)
  {
    DimensionOkSplit(a, b, meta, cfg, dim);
    if DimensionOk(a + b, meta, cfg, dim) {
      DimensionCodesSplit(a, b, meta, cfg, dim);
      if JoinsDimensionGroups(meta, cfg, dim) {
        var ca := JoinDimensionCodes(a, meta, cfg, dim);
        var cb := JoinDimensionCodes(b, meta, cfg, dim);
        var groups := CodeLookup(meta[dim + "Groups"], "ID", dim + "Group", cfg.dimensionGroupVars, None);
        OverlayAllSplit(ca, cb, groups, dim + "GroupID", !cfg.includeDimensionGroupId);
      }
    }
  }

  lemma {:induction false} DimensionsSplit(a: seq<Row>, b: seq<Row>, meta: Tables, cfg: Config, dims: seq<string>)
    ensures DimensionsOk(a + b, meta, cfg, dims) <==> DimensionsOk(a, meta, cfg, dims) && DimensionsOk(b, meta, cfg, dims)
    ensures DimensionsOk(a + b, meta, cfg, dims) ==>
              JoinDimensions(a + b, meta, cfg, dims) == JoinDimensions(a, meta, cfg, dims) + JoinDimensions(b, meta, cfg, dims)
    decreases |dims|
  {
    if dims != [] {
      DimensionSplit(a, b, meta, cfg, dims[0]);
      if DimensionOk(a + b, meta, cfg, dims[0]) {
        DimensionsSplit(JoinDimension(a, meta, cfg, dims[0]), JoinDimension(b, meta, cfg, dims[0]), meta, cfg, dims[1..]);
      }
    }
  }

  lemma DimensionStepSplit(a: seq<Row>, b: seq<Row>, meta: Tables, cfg: Config)
    ensures DimensionStepOk(a + b, meta, cfg) <==> DimensionStepOk(a, meta, cfg) && DimensionStepOk(b, meta, cfg)
    ensures DimensionStepOk(a + b, meta, cfg) ==>
              JoinDimensionStep(a + b, meta, cfg) == JoinDimensionStep(a, meta, cfg) + JoinDimensionStep(b, meta, cfg)
  {
    if JoinsDimensions(cfg) && DimensionsDeclared(meta) {
      DimensionsSplit(a, b, meta, cfg, DimensionNames(meta));
    }
  }

  /** Enriching the observations in two batches gives the rows of enriching
      them at once, and the joins fail on the whole exactly when they fail
      on one of the batches: no observation's result depends on another. */
  lemma EnrichSplit(a: seq<Row>, b: seq<Row>, meta: Tables, cfg: Config)
    ensures EnrichOk(a + b, meta, cfg) <==> EnrichOk(a, meta, cfg) && EnrichOk(b, meta, cfg)
    ensures EnrichOk(a + b, meta, cfg) ==> Enrich(a + b, meta, cfg) == Enrich(a, meta, cfg) + Enrich(b, meta, cfg)
  {
    MeasuresSplit(a, b, meta, cfg);
    if MeasuresOk(a + b, meta, cfg) {
      DimensionStepSplit(JoinMeasures(a, meta, cfg), JoinMeasures(b, meta, cfg), meta, cfg);
    }
  }
}
