/** A worked example of the version-4 enricher: one observation, one
    measure code in one measure group, and no dimensions. */
module EnrichExample {
  import opened Wrappers
  import opened Values
  import opened Enricher
  import opened Data4

  const ExampleCode: Row := map["Identifier" := Str("M1"), "Title" := Str("Total"), "Unit" := Str("count"),
                                "MeasureGroupID" := Num(7)]

  const ExampleGroup: Row := map["ID" := Num(7), "Title" := Str("All")]

  const ExampleMeta: Tables := map["MeasureCodes" := [ExampleCode], "MeasureGroups" := [ExampleGroup], "Dimensions" := []]

  const ExampleObservation: Row := map["Id" := Num(0), "Measure" := Str("M1"), "Value" := Num(5)]

  /** What the measure code contributes under the default variables. */
  const ExampleMeasureFields: Row :=
    map["MeasureUnit" := Str("count"), "MeasureTitle" := Str("Total"), "MeasureGroupID" := Num(7)]

  /** What the measure group contributes under the default variables. */
  const ExampleGroupFields: Row := map["MeasureGroupTitle" := Str("All")]

  /** A two-variable renaming, unfolded. */
  lemma PrefixedPair(d: Row, prefix: string, a: string, b: string)
    requires a in d && b in d
    ensures Prefixed(d, prefix, [a, b]) == map[prefix + b := d[b], prefix + a := d[a]]
  {
    assert [a, b][1..] == [b];
    assert [b][1..] == [];
  }

  /** The record of a code with two variables and a group, unfolded, with
      the prefixed names given. */
  lemma CodeRecordPair(d: Row, prefix: string, a: string, b: string, group: string, na: string, nb: string, ng: string)
    requires a in d && b in d && group in d
    requires na == prefix + a && nb == prefix + b && ng == prefix + "GroupID"
    ensures CodeRecord(d, prefix, [a, b], Some(group)) == map[nb := d[b], na := d[a], ng := d[group]]
  {
    PrefixedPair(d, prefix, a, b);
  }

  /** A one-row code table maps the row's identifier to its record. */
  lemma CodeLookupSingle(code: Row, keyField: string, prefix: string, vars: seq<string>, groupField: Option<string>)
    requires CodesOk([code], keyField, vars, groupField)
    ensures CodeLookup([code], keyField, prefix, vars, groupField)
         == map[code[keyField] := CodeRecord(code, prefix, vars, groupField)]
  {
    assert IndexBy([code], keyField) == map[code[keyField] := code] by {
      assert [code][..0] == [];
    }
  }

  lemma ExampleCodeOk()
    ensures CodesOk([ExampleCode], "Identifier", ["Title", "Unit"], Some("MeasureGroupID"))
    ensures ExampleCode["Identifier"] == Str("M1")
    ensures ExampleCode["Unit"] == Str("count") && ExampleCode["Title"] == Str("Total")
    ensures ExampleCode["MeasureGroupID"] == Num(7)
  {
  }

  lemma ExampleCodeLookup()
    ensures CodesOk([ExampleCode], "Identifier", ["Title", "Unit"], Some("MeasureGroupID"))
    ensures CodeLookup([ExampleCode], "Identifier", "Measure", ["Title", "Unit"], Some("MeasureGroupID"))
         == map[Str("M1") := ExampleMeasureFields]
  {
    ExampleCodeOk();
    assert "Measure" + "Title" == "MeasureTitle" && "Measure" + "Unit" == "MeasureUnit"
        && "Measure" + "GroupID" == "MeasureGroupID";
    CodeRecordPair(ExampleCode, "Measure", "Title", "Unit", "MeasureGroupID", "MeasureTitle", "MeasureUnit", "MeasureGroupID");
    CodeLookupSingle(ExampleCode, "Identifier", "Measure", ["Title", "Unit"], Some("MeasureGroupID"));
  }

  lemma ExampleGroupOk()
    ensures CodesOk([ExampleGroup], "ID", ["Title"], None)
    ensures ExampleGroup["ID"] == Num(7)
  {
  }

  lemma ExampleGroupLookup()
    ensures CodesOk([ExampleGroup], "ID", ["Title"], None)
    ensures CodeLookup([ExampleGroup], "ID", "MeasureGroup", ["Title"], None) == map[Num(7) := ExampleGroupFields]
  {
    ExampleGroupOk();
    CodeLookupSingle(ExampleGroup, "ID", "MeasureGroup", ["Title"], None);
    assert CodeRecord(ExampleGroup, "MeasureGroup", ["Title"], None) == ExampleGroupFields by {
      assert ["Title"][1..] == [];
      assert "MeasureGroup" + "Title" == "MeasureGroupTitle";
    }
  }

  /** The measure code joined, its identifier dropped when not wanted. */
  lemma ExampleCodeJoin(dropKey: bool)
    ensures Overlay(ExampleObservation, map[Str("M1") := ExampleMeasureFields], "Measure", dropKey)
         == ExampleObservation + ExampleMeasureFields - (if dropKey then {"Measure"} else {})
  {
  }

  /** The measure group joined onto the coded row. */
  lemma ExampleGroupJoin(dropCode: bool, dropKey: bool)
    ensures var coded := ExampleObservation + ExampleMeasureFields - (if dropCode then {"Measure"} else {});
            && "MeasureGroupID" in coded && coded["MeasureGroupID"] == Num(7)
            && Overlay(coded, map[Num(7) := ExampleGroupFields], "MeasureGroupID", dropKey)
               == coded + ExampleGroupFields - (if dropKey then {"MeasureGroupID"} else {})
  {
  }

  lemma Singleton<T>(s: seq<T>, x: T)
    requires |s| == 1 && s[0] == x
    ensures s == [x]
  {
  }

  /** The default settings with both measure identifiers switched off. */
  const NoIdConfig := DefaultConfig.(includeMeasureCodeId := false, includeMeasureGroupId := false)

  lemma ExampleMeasureLookup(cfg: Config)
    requires cfg.measureVars == Some(["Title", "Unit"]) && cfg.measureGroupVars == ["Title"]
    ensures MeasureCodesOk(ExampleMeta, cfg)
    ensures MeasureLookup(ExampleMeta, cfg) == map[Str("M1") := ExampleMeasureFields]
    ensures "MeasureGroups" in ExampleMeta && CodesOk(ExampleMeta["MeasureGroups"], "ID", cfg.measureGroupVars, None)
    ensures MeasureGroupLookup(ExampleMeta, cfg) == map[Num(7) := ExampleGroupFields]
  {
    ExampleCodeLookup();
    ExampleGroupLookup();
    assert ExampleMeta["MeasureCodes"] == [ExampleCode];
    assert ExampleMeta["MeasureGroups"] == [ExampleGroup];
  }

  lemma ExampleCodeRow(cfg: Config)
    requires cfg.measureVars == Some(["Title", "Unit"]) && cfg.measureGroupVars == ["Title"]
    ensures MeasureCodesOk(ExampleMeta, cfg)
    ensures var coded := JoinMeasureCodes([ExampleObservation], ExampleMeta, cfg);
            |coded| == 1 && coded[0] == Overlay(ExampleObservation, map[Str("M1") := ExampleMeasureFields], "Measure", !cfg.includeMeasureCodeId)
  {
    ExampleMeasureLookup(cfg);
  }

  /** The measure-code join under the default variables. */
  lemma ExampleCodeStep(cfg: Config)
    requires cfg.measureVars == Some(["Title", "Unit"]) && cfg.measureGroupVars == ["Title"]
    ensures MeasureCodesOk(ExampleMeta, cfg)
    ensures JoinMeasureCodes([ExampleObservation], ExampleMeta, cfg)
         == [ExampleObservation + ExampleMeasureFields - (if cfg.includeMeasureCodeId then {} else {"Measure"})]
  {
    ExampleCodeRow(cfg);
    ExampleCodeJoin(!cfg.includeMeasureCodeId);
    var coded := JoinMeasureCodes([ExampleObservation], ExampleMeta, cfg);
    Singleton(coded, ExampleObservation + ExampleMeasureFields - (if cfg.includeMeasureCodeId then {} else {"Measure"}));
  }

  /** With codes and groups both joined, the measure step is the group
      overlay of the code overlay. */
  lemma JoinMeasuresBoth(obs: seq<Row>, meta: Tables, cfg: Config)
    requires MeasuresOk(obs, meta, cfg) && JoinsMeasures(cfg) && JoinsMeasureGroups(meta, cfg)
    ensures JoinMeasures(obs, meta, cfg)
         == OverlayAll(JoinMeasureCodes(obs, meta, cfg), MeasureGroupLookup(meta, cfg), "MeasureGroupID", !cfg.includeMeasureGroupId)
  {
  }

  lemma ExampleMeasuresOk(cfg: Config)
    requires cfg.measureVars == Some(["Title", "Unit"]) && cfg.measureGroupVars == ["Title"]
    ensures MeasuresOk([ExampleObservation], ExampleMeta, cfg)
    ensures "MeasureGroups" in ExampleMeta && CodesOk(ExampleMeta["MeasureGroups"], "ID", cfg.measureGroupVars, None)
    ensures JoinMeasureCodes([ExampleObservation], ExampleMeta, cfg)
         == [ExampleObservation + ExampleMeasureFields - (if cfg.includeMeasureCodeId then {} else {"Measure"})]
  {
    var row := ExampleObservation + ExampleMeasureFields - (if cfg.includeMeasureCodeId then {} else {"Measure"});
    assert MeasureCodesOk(ExampleMeta, cfg) && "MeasureGroups" in ExampleMeta
        && CodesOk(ExampleMeta["MeasureGroups"], "ID", cfg.measureGroupVars, None) by {
      ExampleMeasureLookup(cfg);
    }
    assert JoinMeasureCodes([ExampleObservation], ExampleMeta, cfg) == [row] by {
      ExampleCodeStep(cfg);
    }
    assert "MeasureGroupID" in row by {
      ExampleGroupJoin(!cfg.includeMeasureCodeId, !cfg.includeMeasureGroupId);
    }
    MeasuresOkBoth([ExampleObservation], ExampleMeta, cfg);
  }

  lemma ExampleGroupRow(cfg: Config)
    requires cfg.measureVars == Some(["Title", "Unit"]) && cfg.measureGroupVars == ["Title"]
    ensures MeasuresOk([ExampleObservation], ExampleMeta, cfg)
    ensures var row := ExampleObservation + ExampleMeasureFields - (if cfg.includeMeasureCodeId then {} else {"Measure"});
            var measured := JoinMeasures([ExampleObservation], ExampleMeta, cfg);
            "MeasureGroupID" in row && |measured| == 1 &&
            measured[0] == Overlay(row, map[Num(7) := ExampleGroupFields], "MeasureGroupID", !cfg.includeMeasureGroupId)
  {
    var row := ExampleObservation + ExampleMeasureFields - (if cfg.includeMeasureCodeId then {} else {"Measure"});
    var groups := map[Num(7) := ExampleGroupFields];
    assert MeasuresOk([ExampleObservation], ExampleMeta, cfg) && JoinsMeasures(cfg) && JoinsMeasureGroups(ExampleMeta, cfg)
        && JoinMeasureCodes([ExampleObservation], ExampleMeta, cfg) == [row] by {
      ExampleMeasuresOk(cfg);
    }
    assert MeasureGroupLookup(ExampleMeta, cfg) == groups by {
      ExampleMeasureLookup(cfg);
    }
    assert "MeasureGroupID" in row by {
      ExampleGroupJoin(!cfg.includeMeasureCodeId, !cfg.includeMeasureGroupId);
    }
    JoinMeasuresSingle(ExampleObservation, ExampleMeta, cfg, row, groups);
  }

  /** The measure step of one row whose code join and group table are known. */
  lemma JoinMeasuresSingle(d: Row, meta: Tables, cfg: Config, row: Row, groups: Lookup)
    requires MeasuresOk([d], meta, cfg) && JoinsMeasures(cfg) && JoinsMeasureGroups(meta, cfg)
    requires JoinMeasureCodes([d], meta, cfg) == [row] && "MeasureGroupID" in row
    requires MeasureGroupLookup(meta, cfg) == groups
    ensures JoinMeasures([d], meta, cfg) == [Overlay(row, groups, "MeasureGroupID", !cfg.includeMeasureGroupId)]
  {
    JoinMeasuresBoth([d], meta, cfg);
    OverlayAllSingle(row, groups, "MeasureGroupID", !cfg.includeMeasureGroupId);
  }

  lemma OverlayAllSingle(d: Row, lookup: Lookup, key: string, dropKey: bool)
    requires key in d
    ensures OverlayAll([d], lookup, key, dropKey) == [Overlay(d, lookup, key, dropKey)]
  {
  }

  /** The measure step raises nothing when the code join does not and every
      coded row has its group identifier. */
  lemma MeasuresOkBoth(obs: seq<Row>, meta: Tables, cfg: Config)
    requires JoinsMeasures(cfg) && MeasureCodesOk(meta, cfg) && forall d <- obs :: "Measure" in d
    requires JoinsMeasureGroups(meta, cfg) && CodesOk(meta["MeasureGroups"], "ID", cfg.measureGroupVars, None)
    requires forall d <- JoinMeasureCodes(obs, meta, cfg) :: "MeasureGroupID" in d
    ensures MeasuresOk(obs, meta, cfg)
  {
  }

  /** The measure step under the default variables, for either choice of identifiers. */
  lemma ExampleMeasureStep(cfg: Config)
    requires cfg.measureVars == Some(["Title", "Unit"]) && cfg.measureGroupVars == ["Title"]
    ensures MeasuresOk([ExampleObservation], ExampleMeta, cfg)
    ensures var coded := ExampleObservation + ExampleMeasureFields - (if cfg.includeMeasureCodeId then {} else {"Measure"});
            JoinMeasures([ExampleObservation], ExampleMeta, cfg)
              == [coded + ExampleGroupFields - (if cfg.includeMeasureGroupId then {} else {"MeasureGroupID"})]
  {
    ExampleGroupRow(cfg);
    ExampleGroupJoin(!cfg.includeMeasureCodeId, !cfg.includeMeasureGroupId);
    var coded := ExampleObservation + ExampleMeasureFields - (if cfg.includeMeasureCodeId then {} else {"Measure"});
    Singleton(JoinMeasures([ExampleObservation], ExampleMeta, cfg),
              coded + ExampleGroupFields - (if cfg.includeMeasureGroupId then {} else {"MeasureGroupID"}));
  }

  /** The example's row with every identifier kept, written out. */
  lemma ExampleRowKept()
    ensures ExampleObservation + ExampleMeasureFields - {} + ExampleGroupFields - {}
         == map["Id" := Num(0), "Measure" := Str("M1"), "Value" := Num(5), "MeasureTitle" := Str("Total"),
                "MeasureUnit" := Str("count"), "MeasureGroupID" := Num(7), "MeasureGroupTitle" := Str("All")]
  {
    assert ExampleObservation + ExampleMeasureFields - {} == ExampleObservation + ExampleMeasureFields;
  }

  /** The example's row with both identifiers dropped, written out. */
  lemma ExampleRowDropped()
    ensures ExampleObservation + ExampleMeasureFields - {"Measure"} + ExampleGroupFields - {"MeasureGroupID"}
         == map["Id" := Num(0), "Value" := Num(5), "MeasureTitle" := Str("Total"),
                "MeasureUnit" := Str("count"), "MeasureGroupTitle" := Str("All")]
  {
    DroppedCoded();
    DroppedGrouped();
  }

  lemma DroppedCoded()
    ensures ExampleObservation + ExampleMeasureFields - {"Measure"}
         == map["Id" := Num(0), "Value" := Num(5), "MeasureUnit" := Str("count"),
                "MeasureTitle" := Str("Total"), "MeasureGroupID" := Num(7)]
  {
  }

  lemma DroppedGrouped()
    ensures map["Id" := Num(0), "Value" := Num(5), "MeasureUnit" := Str("count"),
                "MeasureTitle" := Str("Total"), "MeasureGroupID" := Num(7)] + ExampleGroupFields - {"MeasureGroupID"}
         == map["Id" := Num(0), "Value" := Num(5), "MeasureTitle" := Str("Total"),
                "MeasureUnit" := Str("count"), "MeasureGroupTitle" := Str("All")]
  {
  }

  /** With the defaults the measure code and its group identifier stay next
      to the joined labels; with both identifiers switched off only the labels
      remain. */
  lemma ExampleEnrichment()
    ensures EnrichOk([ExampleObservation], ExampleMeta, DefaultConfig)
    ensures Enrich([ExampleObservation], ExampleMeta, DefaultConfig)
         == [map["Id" := Num(0), "Measure" := Str("M1"), "Value" := Num(5), "MeasureTitle" := Str("Total"),
                 "MeasureUnit" := Str("count"), "MeasureGroupID" := Num(7), "MeasureGroupTitle" := Str("All")]]
    ensures var cfg := DefaultConfig.(includeMeasureCodeId := false, includeMeasureGroupId := false);
            && EnrichOk([ExampleObservation], ExampleMeta, cfg)
            && Enrich([ExampleObservation], ExampleMeta, cfg)
               == [map["Id" := Num(0), "Value" := Num(5), "MeasureTitle" := Str("Total"),
                       "MeasureUnit" := Str("count"), "MeasureGroupTitle" := Str("All")]]
  {
    ExampleRowKept();
    ExampleRowDropped();
    assert DimensionNames(ExampleMeta) == [];
    ExampleMeasureStep(DefaultConfig);
    ExampleMeasureStep(DefaultConfig.(includeMeasureCodeId := false, includeMeasureGroupId := false));
  }

  /** No labels and no dimension code ids: every dimension field is deleted. */
  const DropConfig := Config(Some([]), true, [], true, Some([]), false, [], false)

  /** A `Dimensions` resource that names the same dimension twice. */
  const RepeatedDimensions: Tables := map["Dimensions" := [map["Identifier" := Str("A")], map["Identifier" := Str("A")]]]

  /** With no observations the drop loop deletes nothing, so a repeated
      dimension is harmless; with one observation the second `del` of the
      same field fails. */
  lemma RepeatedDimensionDrop()
    ensures EnrichOk([], RepeatedDimensions, DropConfig) && Enrich([], RepeatedDimensions, DropConfig) == []
    ensures !EnrichOk([map["A" := Num(1)]], RepeatedDimensions, DropConfig)
  {
    var one: seq<Row> := [map["A" := Num(1)]];
    assert JoinMeasures([], RepeatedDimensions, DropConfig) == [];
    assert JoinMeasures(one, RepeatedDimensions, DropConfig) == one;
    DropStep([], RepeatedDimensions, DropConfig);
    DropStep(one, RepeatedDimensions, DropConfig);
    var ds: seq<Row> := RepeatedDimensions["Dimensions"];
    assert ds[0]["Identifier"] == ds[1]["Identifier"];
  }

  /** The example's metadata as downloaded, with `MeasureGroups` an empty
      object instead of a list. */
  const EmptyGroupsRaw: map<string, Value> :=
    map["MeasureCodes" := Arr([Obj(ExampleCode)]), "MeasureGroups" := Obj(map[]), "Dimensions" := Arr([])]

  /** The example's tables with an empty measure-group table. */
  const EmptyGroupsMeta: Tables := map["MeasureCodes" := [ExampleCode], "MeasureGroups" := [], "Dimensions" := []]

  /** An empty object is kept as an empty table. */
  lemma EmptyGroupTables()
    ensures ToTables(EmptyGroupsRaw) == EmptyGroupsMeta
  {
    var t := ToTables(EmptyGroupsRaw);
    assert EmptyIterable(EmptyGroupsRaw["MeasureGroups"]);
    var codes := ToRows(EmptyGroupsRaw["MeasureCodes"]);
    assert codes.Success? && |codes.value| == 1 && Obj(codes.value[0]) == Obj(ExampleCode);
    Singleton(codes.value, ExampleCode);
    assert ToRows(EmptyGroupsRaw["Dimensions"]) == Success([]);
    assert t.Keys == EmptyGroupsMeta.Keys;
    assert t["MeasureCodes"] == [ExampleCode] && t["MeasureGroups"] == [] && t["Dimensions"] == [];
  }

  /** Tables whose measure codes are the example's and whose measure-group
      table is empty. */
  predicate EmptyGroups(meta: Tables) {
    && "MeasureCodes" in meta && meta["MeasureCodes"] == [ExampleCode]
    && "MeasureGroups" in meta && meta["MeasureGroups"] == []
  }

  /** The measure codes of the example, whatever its group table. */
  lemma EmptyGroupCodes(meta: Tables, cfg: Config)
    requires EmptyGroups(meta)
    requires cfg.measureVars == Some(["Title", "Unit"]) && cfg.measureGroupVars == ["Title"]
    ensures MeasureCodesOk(meta, cfg) && JoinsMeasures(cfg) && JoinsMeasureGroups(meta, cfg)
    ensures MeasureLookup(meta, cfg) == map[Str("M1") := ExampleMeasureFields]
    ensures CodesOk(meta["MeasureGroups"], "ID", cfg.measureGroupVars, None) && MeasureGroupLookup(meta, cfg) == map[]
  {
    ExampleCodeLookup();
  }

  /** The measure step of one coded row against an empty group lookup:
      only the group id is deleted, when it is not wanted. */
  lemma GroupJoinEmpty(d: Row, meta: Tables, cfg: Config, row: Row)
    requires MeasureCodesOk(meta, cfg) && JoinsMeasures(cfg) && JoinsMeasureGroups(meta, cfg) && "Measure" in d
    requires CodesOk(meta["MeasureGroups"], "ID", cfg.measureGroupVars, None) && MeasureGroupLookup(meta, cfg) == map[]
    requires JoinMeasureCodes([d], meta, cfg) == [row] && "MeasureGroupID" in row
    ensures MeasuresOk([d], meta, cfg)
    ensures JoinMeasures([d], meta, cfg) == [if cfg.includeMeasureGroupId then row else row - {"MeasureGroupID"}]
  {
    MeasuresOkBoth([d], meta, cfg);
    JoinMeasuresSingle(d, meta, cfg, row, map[]);
  }

  /** A coded row without a group id fails the group lookup. */
  lemma GroupIdMissingFails(d: Row, meta: Tables, cfg: Config)
    requires MeasureCodesOk(meta, cfg) && JoinsMeasures(cfg) && JoinsMeasureGroups(meta, cfg)
    requires "Measure" in d && d["Measure"] !in MeasureLookup(meta, cfg) && "MeasureGroupID" !in d
    ensures !MeasuresOk([d], meta, cfg)
  {
    OverlayAllSingle(d, MeasureLookup(meta, cfg), "Measure", !cfg.includeMeasureCodeId);
  }

  /** The example's code join with the code id kept. */
  lemma EmptyGroupCoded(meta: Tables)
    requires EmptyGroups(meta)
    ensures var cfg := DefaultConfig.(includeMeasureGroupId := false);
            && MeasureCodesOk(meta, cfg)
            && JoinMeasureCodes([ExampleObservation], meta, cfg) == [ExampleObservation + ExampleMeasureFields]
  {
    var cfg := DefaultConfig.(includeMeasureGroupId := false);
    var lookup := map[Str("M1") := ExampleMeasureFields];
    EmptyGroupCodes(meta, cfg);
    ExampleCodeJoin(false);
    assert Overlay(ExampleObservation, lookup, "Measure", false) == ExampleObservation + ExampleMeasureFields;
    OverlayAllSingle(ExampleObservation, lookup, "Measure", false);
  }

  /** With the group id dropped, the empty group lookup deletes it. */
  lemma EmptyGroupJoin(meta: Tables)
    requires EmptyGroups(meta)
    ensures var cfg := DefaultConfig.(includeMeasureGroupId := false);
            && MeasuresOk([ExampleObservation], meta, cfg)
            && JoinMeasures([ExampleObservation], meta, cfg)
               == [ExampleObservation + ExampleMeasureFields - {"MeasureGroupID"}]
  {
    var cfg := DefaultConfig.(includeMeasureGroupId := false);
    EmptyGroupCodes(meta, cfg);
    EmptyGroupCoded(meta);
    GroupJoinEmpty(ExampleObservation, meta, cfg, ExampleObservation + ExampleMeasureFields);
  }

  /** A row whose code is unknown gets no `MeasureGroupID`, so the group
      lookup fails on it. */
  lemma EmptyGroupMissingId(meta: Tables)
    requires EmptyGroups(meta)
    ensures !MeasuresOk([ExampleObservation["Measure" := Str("M2")]], meta, DefaultConfig)
  {
    EmptyGroupCodes(meta, DefaultConfig);
    GroupIdMissingFails(ExampleObservation["Measure" := Str("M2")], meta, DefaultConfig);
  }

  /** An empty-object group table is an empty group lookup: the group join
      still runs, so a dropped `MeasureGroupID` is deleted, and a row whose
      code supplies no `MeasureGroupID` fails on the lookup key. */
  lemma EmptyGroupTable()
    ensures ToTables(EmptyGroupsRaw) == EmptyGroupsMeta
    ensures var cfg := DefaultConfig.(includeMeasureGroupId := false);
            && MeasuresOk([ExampleObservation], ToTables(EmptyGroupsRaw), cfg)
            && JoinMeasures([ExampleObservation], ToTables(EmptyGroupsRaw), cfg)
               == [ExampleObservation + ExampleMeasureFields - {"MeasureGroupID"}]
    ensures !MeasuresOk([ExampleObservation["Measure" := Str("M2")]], ToTables(EmptyGroupsRaw), DefaultConfig)
  {
    EmptyGroupTables();
    assert EmptyGroups(EmptyGroupsMeta);
    EmptyGroupJoin(EmptyGroupsMeta);
    EmptyGroupMissingId(EmptyGroupsMeta);
  }
}
