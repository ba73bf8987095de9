/** The root of the drive: five metadata nodes and the "Packages" node,
    whose package list is loaded from the DTS service, msdb and the SSISDB
    catalog the first time it is found empty. */
module RootNodeFactory {
  import opened Effects
  import opened Packages
  import opened FolderWalker
  import opened CatalogWalker
  import opened NameSort

  /** A child node of the root: one of the metadata collections, known
      here by name only, or the package list. */
  datatype NodeFactory = CollectionNode(name: string) | PackagesNode(packages: seq<PackageDescriptor>)

  function NodeName(n: NodeFactory): string
  {
    match n
    case CollectionNode(name) => name
    case PackagesNode(_) => "Packages"
  }

  function NodeNames(ns: seq<NodeFactory>): seq<string>
  {
    seq(|ns|, i requires 0 <= i < |ns| => NodeName(ns[i]))
  }

  const MetadataNames: seq<string> := ["ConnectionTypes", "DataTypes", "DbProviders", "LogProviders", "TaskTypes"]

  /** Append the nodes of the five metadata collections to `nodes`. */
  method GetCommonNodeFactories(nodes: seq<NodeFactory>) returns (r: seq<NodeFactory>)
    ensures |r| == |nodes| + 5 && r[..|nodes|] == nodes
    ensures NodeNames(r) == NodeNames(nodes) + MetadataNames
  {
    r := nodes + [CollectionNode("ConnectionTypes"), CollectionNode("DataTypes"), CollectionNode("DbProviders"),
                  CollectionNode("LogProviders"), CollectionNode("TaskTypes")];
  }

  // ----- the load and its progress records -----

  /** The record written when the load starts; percent complete and the
      current operation still hold their initial values. */
  function InitialRecord(): ProgressRecord
  {
    ProgressRecord(1, "Loading Packages", "Loading DTS Packages", None, -1, Processing)
  }

  function SqlRecord(r: ProgressRecord): ProgressRecord
  {
    r.(percentComplete := 33, statusDescription := "Loading SQL Packages")
  }

  function CatalogPhaseRecord(r: ProgressRecord): ProgressRecord
  {
    r.(percentComplete := 66, statusDescription := "Loading SSISDB Catalog Packages")
  }

  function DoneRecord(r: ProgressRecord): ProgressRecord
  {
    r.(percentComplete := 100, recordType := Completed, statusDescription := "Done!")
  }

  /** What a load produced: the packages appended to the drive's list (not
      yet sorted), whether it ran to the end, and its interactions. */
  datatype Load = Load(found: seq<PackageDescriptor>, completed: bool, trace: seq<Effect>)

  /** The load: the DTS walk from the root path, then the msdb walk, then
      the catalog walk, each result appended as soon as its walk returns,
      with the shared progress record updated and written between them.
      A walk that throws ends the load with the results appended so far. */
  function LoadAll(dts: Store, sql: Store, catalog: Catalog): Load
    requires Acyclic(dts) && Acyclic(sql)
  {
    var r0 := InitialRecord();
    var d := Walk(dts, Dts, r0, "");
    var t := [WriteProgress(r0)] + d.trace;
    if d.result.None? then Load([], false, t)
    else LoadFromSql(sql, catalog, d.result.value, t, After(r0, d.trace))
  }

  /** The rest of a load once the DTS walk returned `found`, after `t`,
      leaving the progress record at `rec`. */
  function LoadFromSql(sql: Store, catalog: Catalog, found: seq<PackageDescriptor>, t: seq<Effect>, rec: ProgressRecord): Load
    requires Acyclic(sql)
  {
    var r1 := SqlRecord(rec);
    var q := Walk(sql, Sql, r1, "");
    var t' := t + [WriteProgress(r1)] + q.trace;
    if q.result.None? then Load(found, false, t')
    else LoadFromCatalog(catalog, found + q.result.value, t', After(r1, q.trace))
  }

  /** The rest of a load once both folder walks returned `found`. */
  function LoadFromCatalog(catalog: Catalog, found: seq<PackageDescriptor>, t: seq<Effect>, rec: ProgressRecord): Load
  {
    var r2 := CatalogPhaseRecord(rec);
    var k := CatalogRun(catalog, r2);
    var t' := t + [WriteProgress(r2)] + k.trace;
    if k.result.None? then Load(found, false, t')
    else Load(found + k.result.value, true, t' + [WriteProgress(DoneRecord(After(r2, k.trace)))])
  }

  /** Status, percent complete and record type of a progress record. */
  datatype Checkpoint = Checkpoint(status: string, percent: int, recordType: RecordType)

  function CheckpointOf(r: ProgressRecord): Checkpoint
  {
    Checkpoint(r.statusDescription, r.percentComplete, r.recordType)
  }

  /** The checkpoints of a load, in the order it passes them. */
  const Checkpoints: seq<Checkpoint> := [
    Checkpoint("Loading DTS Packages", -1, Processing),
    Checkpoint("Loading SQL Packages", 33, Processing),
    Checkpoint("Loading SSISDB Catalog Packages", 66, Processing),
    Checkpoint("Done!", 100, Completed)]

  /** `r` belongs to the load's activity and carries one of its
      checkpoints. */
  ghost predicate OfLoad(r: ProgressRecord)
  {
    && r.activityId == 1
    && r.activity == "Loading Packages"
    && (|| CheckpointOf(r) == Checkpoints[0]
        || CheckpointOf(r) == Checkpoints[1]
        || CheckpointOf(r) == Checkpoints[2]
        || CheckpointOf(r) == Checkpoints[3])
  }

  /** `ws` is a log of the load's records up to checkpoint `k`: every record
      belongs to the load and is at most at checkpoint `k`, percent complete
      never goes down, and each of the first `k + 1` checkpoints is reached. */
  ghost predicate LogUpTo(ws: seq<ProgressRecord>, k: nat)
  {
    && k < |Checkpoints|
    && (forall i :: 0 <= i < |ws| ==> OfLoad(ws[i]) && ws[i].percentComplete <= Checkpoints[k].percent)
    && (forall i, j :: 0 <= i <= j < |ws| ==> ws[i].percentComplete <= ws[j].percentComplete)
    && (forall m :: 0 <= m <= k ==> exists i :: 0 <= i < |ws| && CheckpointOf(ws[i]) == Checkpoints[m])
  }

  /** `block` holds records that differ from `base` only in their current
      operation. */
  ghost predicate SameStage(block: seq<ProgressRecord>, base: ProgressRecord)
  {
    forall r :: r in block ==> r == base.(currentOperation := r.currentOperation)
  }

  lemma LogStarts(block: seq<ProgressRecord>)
    requires SameStage(block, InitialRecord())
    ensures LogUpTo([InitialRecord()] + block, 0)
  {
    var ws := [InitialRecord()] + block;
    forall i | 0 <= i < |ws|
      ensures CheckpointOf(ws[i]) == Checkpoints[0] && ws[i].activityId == 1 && ws[i].activity == "Loading Packages"
    {
      if i > 0 {
        assert ws[i] in block;
      }
    }
    assert CheckpointOf(ws[0]) == Checkpoints[0];
  }

  /** A log up to checkpoint `k` followed by the record of checkpoint `k + 1`
      and records of the same stage is a log up to checkpoint `k + 1`. */
  lemma LogExtends(ws: seq<ProgressRecord>, k: nat, base: ProgressRecord, block: seq<ProgressRecord>)
    requires LogUpTo(ws, k) && k + 1 < |Checkpoints|
    requires CheckpointOf(base) == Checkpoints[k + 1]
    requires base.activityId == 1 && base.activity == "Loading Packages"
    requires SameStage(block, base)
    ensures LogUpTo(ws + [base] + block, k + 1)
  {
    var vs := ws + [base] + block;
    StageAtCheckpoint(ws, k + 1, base, block);
    forall i | 0 <= i < |ws|
      ensures vs[i] == ws[i]
    {
    }
    assert Checkpoints[k].percent < Checkpoints[k + 1].percent;
    forall m | 0 <= m <= k + 1
      ensures exists i :: 0 <= i < |vs| && CheckpointOf(vs[i]) == Checkpoints[m]
    {
      if m <= k {
        var i :| 0 <= i < |ws| && CheckpointOf(ws[i]) == Checkpoints[m];
        assert vs[i] == ws[i];
      } else {
        assert CheckpointOf(vs[|ws|]) == Checkpoints[m];
      }
    }
  }

  /** The records appended for a stage all carry its checkpoint. */
  lemma StageAtCheckpoint(ws: seq<ProgressRecord>, k: nat, base: ProgressRecord, block: seq<ProgressRecord>)
    requires k < |Checkpoints| && CheckpointOf(base) == Checkpoints[k]
    requires base.activityId == 1 && base.activity == "Loading Packages"
    requires SameStage(block, base)
    ensures var vs := ws + [base] + block;
      forall i :: |ws| <= i < |vs| ==>
        CheckpointOf(vs[i]) == Checkpoints[k] && vs[i].activityId == 1 && vs[i].activity == "Loading Packages"
  {
    var vs := ws + [base] + block;
    forall i | |ws| <= i < |vs|
      ensures CheckpointOf(vs[i]) == Checkpoints[k]
      ensures vs[i].activityId == 1 && vs[i].activity == "Loading Packages"
    {
      if i > |ws| {
        assert vs[i] in block;
      }
    }
  }

  lemma WalkStage(s: Store, src: Source, rec: ProgressRecord)
    requires Acyclic(s)
    ensures SameStage(Writes(Walk(s, src, rec, "").trace), rec)
  {
    WalkShaped(s, src, rec, "");
    ShapedKeeps(src, rec, Walk(s, src, rec, "").trace);
    KeptWrites(rec, Walk(s, src, rec, "").trace);
  }

  lemma CatalogStage(c: Catalog, rec: ProgressRecord)
    ensures SameStage(Writes(CatalogRun(c, rec).trace), rec)
  {
    CatalogKeeps(c, rec);
    KeptWrites(rec, CatalogRun(c, rec).trace);
  }

  lemma AfterInStage(rec: ProgressRecord, t: seq<Effect>)
    requires SameStage(Writes(t), rec)
    ensures After(rec, t) == rec.(currentOperation := After(rec, t).currentOperation)
  {
  }

  /** A log that starts with the initial record and reaches checkpoint `k`
      of the load; when `k` is the last checkpoint, only the final record
      is at it. */
  ghost predicate LoadLogAt(ws: seq<ProgressRecord>, k: nat, completed: bool)
  {
    && ws != [] && ws[0] == InitialRecord()
    && LogUpTo(ws, k)
    && (k == 3 <==> completed)
    && (k == 3 ==> LogUpTo(ws[..|ws| - 1], 2))
  }

  /** The records written at one stage of the load keep it. */
  ghost predicate StageRecord(rec: ProgressRecord, k: nat)
  {
    k < |Checkpoints| && CheckpointOf(rec) == Checkpoints[k] && rec.activityId == 1 && rec.activity == "Loading Packages"
  }

  lemma AfterStage(rec: ProgressRecord, t: seq<Effect>, k: nat)
    requires StageRecord(rec, k) && SameStage(Writes(t), rec)
    ensures StageRecord(After(rec, t), k)
  {
    AfterInStage(rec, t);
  }

  lemma CatalogLog(catalog: Catalog, found: seq<PackageDescriptor>, t: seq<Effect>, rec: ProgressRecord)
    returns (k: nat)
    requires Writes(t) != [] && Writes(t)[0] == InitialRecord() && LogUpTo(Writes(t), 1)
    requires StageRecord(rec, 1)
    ensures var l := LoadFromCatalog(catalog, found, t, rec); LoadLogAt(Writes(l.trace), k, l.completed)
  {
    var l := LoadFromCatalog(catalog, found, t, rec);
    var r2 := CatalogPhaseRecord(rec);
    var c := CatalogRun(catalog, r2);
    CatalogStage(catalog, r2);
    var t' := t + [WriteProgress(r2)] + c.trace;
    assert StageRecord(r2, 2);
    NextStage(t, 1, r2, c.trace);
    if c.result.None? {
      assert l.trace == t';
      StoppedLog(Writes(t'), 2);
      k := 2;
    } else {
      var r3 := DoneRecord(After(r2, c.trace));
      AfterInStage(r2, c.trace);
      assert StageRecord(r3, 3);
      LastWrite(t', r3);
      CompletedLog(Writes(t'), r3);
      assert l.trace == t' + [WriteProgress(r3)];
      k := 3;
    }
  }

  lemma StoppedLog(ws: seq<ProgressRecord>, k: nat)
    requires ws != [] && ws[0] == InitialRecord() && LogUpTo(ws, k) && k < 3
    ensures LoadLogAt(ws, k, false)
  {
  }

  lemma CompletedLog(ws: seq<ProgressRecord>, r: ProgressRecord)
    requires ws != [] && ws[0] == InitialRecord() && LogUpTo(ws, 2)
    requires StageRecord(r, 3)
    ensures LoadLogAt(ws + [r], 3, true)
  {
    LogExtends(ws, 2, r, []);
    assert ws + [r] + [] == ws + [r];
    assert (ws + [r])[..|ws|] == ws;
  }

  lemma LastWrite(t: seq<Effect>, r: ProgressRecord)
    ensures Writes(t + [WriteProgress(r)]) == Writes(t) + [r]
  {
    WritesAppend(t, [WriteProgress(r)]);
    assert Writes([WriteProgress(r)]) == [r] + Writes([]);
  }

  lemma SqlLog(sql: Store, catalog: Catalog, found: seq<PackageDescriptor>, t: seq<Effect>, rec: ProgressRecord)
    returns (k: nat)
    requires Acyclic(sql)
    requires Writes(t) != [] && Writes(t)[0] == InitialRecord() && LogUpTo(Writes(t), 0)
    requires StageRecord(rec, 0)
    ensures var l := LoadFromSql(sql, catalog, found, t, rec); LoadLogAt(Writes(l.trace), k, l.completed)
  {
    var r1 := SqlRecord(rec);
    var q := Walk(sql, Sql, r1, "");
    WalkStage(sql, Sql, r1);
    var t' := t + [WriteProgress(r1)] + q.trace;
    NextStage(t, 0, r1, q.trace);
    if q.result.Some? {
      AfterStage(r1, q.trace, 1);
      assert LoadFromSql(sql, catalog, found, t, rec)
        == LoadFromCatalog(catalog, found + q.result.value, t', After(r1, q.trace));
      k := CatalogLog(catalog, found + q.result.value, t', After(r1, q.trace));
    } else {
      assert LoadFromSql(sql, catalog, found, t, rec) == Load(found, false, t');
      StoppedLog(Writes(t'), 1);
      k := 1;
    }
  }

  /** A stage's first record and the records of that stage, written after a
      log up to the previous checkpoint, extend it by one checkpoint. */
  lemma NextStage(t: seq<Effect>, k: nat, r: ProgressRecord, u: seq<Effect>)
    requires Writes(t) != [] && Writes(t)[0] == InitialRecord() && LogUpTo(Writes(t), k)
    requires k + 1 < |Checkpoints| && StageRecord(r, k + 1) && SameStage(Writes(u), r)
    ensures var ws := Writes(t + [WriteProgress(r)] + u);
      ws != [] && ws[0] == InitialRecord() && LogUpTo(ws, k + 1)
  {
    StageWrites(t, r, u);
    LogExtends(Writes(t), k, r, Writes(u));
    assert (Writes(t) + [r] + Writes(u))[0] == Writes(t)[0];
  }

  /** The records a load writes form a log up to the checkpoint it
      reached, which is the last one only for a load that ran to the end,
      and then only for the final record. */
  lemma LoadLog(dts: Store, sql: Store, catalog: Catalog) returns (k: nat)
    requires Acyclic(dts) && Acyclic(sql)
    ensures var l := LoadAll(dts, sql, catalog); LoadLogAt(Writes(l.trace), k, l.completed)
  {
    var r0 := InitialRecord();
    var d := Walk(dts, Dts, r0, "");
    WalkStage(dts, Dts, r0);
    var t := [WriteProgress(r0)] + d.trace;
    WritesAppend([WriteProgress(r0)], d.trace);
    assert Writes([WriteProgress(r0)]) == [r0] + Writes([]);
    LogStarts(Writes(d.trace));
    k := 0;
    if d.result.Some? {
      assert StageRecord(r0, 0);
      AfterStage(r0, d.trace, 0);
      k := SqlLog(sql, catalog, d.result.value, t, After(r0, d.trace));
    }
  }

  lemma StageWrites(t: seq<Effect>, r: ProgressRecord, u: seq<Effect>)
    ensures Writes(t + [WriteProgress(r)] + u) == Writes(t) + [r] + Writes(u)
  {
    WritesAppend(t, [WriteProgress(r)]);
    WritesAppend(t + [WriteProgress(r)], u);
    assert Writes([WriteProgress(r)]) == [r] + Writes([]);
  }

  /** What a log of the load shows a reader. */
  ghost predicate ProgressShown(ws: seq<ProgressRecord>, completed: bool)
  {
    && ws != [] && ws[0] == InitialRecord()
    && (forall i :: 0 <= i < |ws| ==>
          && ws[i].activityId == 1
          && ws[i].activity == "Loading Packages"
          && CheckpointOf(ws[i]) in Checkpoints)
    && (forall i, j :: 0 <= i <= j < |ws| ==> ws[i].percentComplete <= ws[j].percentComplete)
    && (forall i :: 0 <= i < |ws| ==> (ws[i].recordType == Completed <==> completed && i == |ws| - 1))
    && (completed ==> forall m :: 0 <= m < |Checkpoints| ==> exists i :: 0 <= i < |ws| && CheckpointOf(ws[i]) == Checkpoints[m])
  }

  lemma LogShown(ws: seq<ProgressRecord>, k: nat, completed: bool)
    requires LoadLogAt(ws, k, completed)
    ensures ProgressShown(ws, completed)
  {
    forall i | 0 <= i < |ws|
      ensures ws[i].recordType == Completed <==> completed && i == |ws| - 1
      ensures CheckpointOf(ws[i]) in Checkpoints
    {
      if k == 3 && i < |ws| - 1 {
        assert ws[i] == ws[..|ws| - 1][i];
      }
    }
  }

  /** The progress records of a load: the first is the initial record;
      every record belongs to the "Loading Packages" activity and carries
      one of the four checkpoints; percent complete never goes down; only
      the last record of a load that ran to the end is `Completed`; and a
      load that ran to the end passed every checkpoint, ending at 100
      percent with "Done!". */
  lemma LoadProgress(dts: Store, sql: Store, catalog: Catalog)
    requires Acyclic(dts) && Acyclic(sql)
    ensures var l := LoadAll(dts, sql, catalog); ProgressShown(Writes(l.trace), l.completed)
  {
    var l := LoadAll(dts, sql, catalog);
    var k := LoadLog(dts, sql, catalog);
    LogShown(Writes(l.trace), k, l.completed);
  }

  // ----- what a load finds -----

  /** A load reads the three sources in order, each only once the previous
      one returned: it completes exactly when all three return, and what it
      found is what they returned, in source order, up to the first one
      that threw. `rec` is any progress record: what a walk returns does not
      depend on the record it writes. */
  lemma LoadOutcome(dts: Store, sql: Store, catalog: Catalog, rec: ProgressRecord)
    requires Acyclic(dts) && Acyclic(sql)
    ensures var l := LoadAll(dts, sql, catalog);
      var d := Walk(dts, Dts, rec, "").result;
      var q := Walk(sql, Sql, rec, "").result;
      var k := CatalogRun(catalog, rec).result;
      && (l.completed <==> d.Some? && q.Some? && k.Some?)
      && l.found == (if d.None? then []
                     else if q.None? then d.value
                     else if k.None? then d.value + q.value
                     else d.value + q.value + k.value)
  {
    var r0 := InitialRecord();
    var d := Walk(dts, Dts, r0, "");
    WalkResultAnyRecord(dts, Dts, r0, rec, "");
    if d.result.Some? {
      var r1 := SqlRecord(After(r0, d.trace));
      var q := Walk(sql, Sql, r1, "");
      WalkResultAnyRecord(sql, Sql, r1, rec, "");
      if q.result.Some? {
        var r2 := CatalogPhaseRecord(After(r1, q.trace));
        CatalogResultAnyRecord(catalog, r2, rec);
      }
    }
  }

  /** A load that completes found the packages of both folder stores, DTS
      first, followed by every package of the catalog. */
  lemma LoadFindsEveryPackage(dts: Store, sql: Store, catalog: Catalog, rec: ProgressRecord)
    requires Acyclic(dts) && Acyclic(sql)
    requires LoadAll(dts, sql, catalog).completed
    ensures Walk(dts, Dts, rec, "").result.Some? && Walk(sql, Sql, rec, "").result.Some?
    ensures LoadAll(dts, sql, catalog).found
      == Walk(dts, Dts, rec, "").result.value + Walk(sql, Sql, rec, "").result.value + ExpectedPackages(catalog)
  {
    LoadOutcome(dts, sql, catalog, rec);
    CatalogFindsEveryPackage(catalog, rec);
  }

  /** Every package a load found, whatever its outcome, was loaded from a
      package entry of a DTS or msdb listing, or is a package of the
      catalog. */
  lemma LoadSound(dts: Store, sql: Store, catalog: Catalog, d: PackageDescriptor)
    requires Acyclic(dts) && Acyclic(sql)
    requires d in LoadAll(dts, sql, catalog).found
    ensures FromPackageEntry(dts, d) || FromPackageEntry(sql, d) || d in ExpectedPackages(catalog)
  {
    var rec := InitialRecord();
    LoadOutcome(dts, sql, catalog, rec);
    var w := Walk(dts, Dts, rec, "");
    var q := Walk(sql, Sql, rec, "");
    if d in ValuesOf(w) {
      WalkSound(dts, Dts, rec, "", d);
    } else if d in ValuesOf(q) {
      WalkSound(sql, Sql, rec, "", d);
    } else {
      CatalogFindsEveryPackage(catalog, rec);
    }
  }

  // ----- where a load stops -----

  /** Whether `e` is a call that the source it goes to answers by
      throwing. */
  function LoadThrows(dts: Store, sql: Store, catalog: Catalog): Effect -> bool
  {
    (e: Effect) =>
      && e.Remote?
      && match e.call
         case ListEntries(src, path) => (if src == Dts then dts else sql).list(path).None?
         case LoadPackage(src, key) => (if src == Dts then dts else sql).load(key).None?
         case _ => CatalogWalker.Throws(catalog)(e)
  }

  /** A load as a run: its packages if it completed, and its interactions. */
  function Outcome(l: Load): Run<PackageDescriptor>
  {
    Run(if l.completed then Some(l.found) else None, l.trace)
  }

  /** A write followed by a run that ends at its first `p` call, after
      interactions none of which satisfies `p`. */
  lemma StageEnds(t: seq<Effect>, r: ProgressRecord, w: Run<PackageDescriptor>, p: Effect -> bool)
    requires forall i :: 0 <= i < |t| ==> !p(t[i])
    requires !p(WriteProgress(r))
    requires EndsAtFirst(w, p)
    ensures EndsAtFirst(Run(w.result, t + [WriteProgress(r)] + w.trace), p)
    ensures w.result.Some? ==> forall i :: 0 <= i < |t + [WriteProgress(r)] + w.trace| ==> !p((t + [WriteProgress(r)] + w.trace)[i])
  {
    var h := t + [WriteProgress(r)];
    forall i | 0 <= i < |h|
      ensures !p(h[i])
    {
      if i < |t| {
        assert h[i] == t[i];
      }
    }
    EndsAtFirstAfter(h, w, p);
  }

  /** The calls of a folder walk of `s` are judged alike by the store and
      by the load. */
  lemma WalkThrowsAsLoad(dts: Store, sql: Store, catalog: Catalog, src: Source, rec: ProgressRecord)
    requires Acyclic(dts) && Acyclic(sql)
    ensures var s := if src == Dts then dts else sql;
      EndsAtFirst(Walk(s, src, rec, ""), LoadThrows(dts, sql, catalog))
  {
    var s := if src == Dts then dts else sql;
    var w := Walk(s, src, rec, "");
    WalkEndsAtFirstThrow(s, src, rec, "");
    WalkInSource(s, src, rec, "");
    forall i | 0 <= i < |w.trace|
      ensures FolderWalker.Throws(s, src)(w.trace[i]) == LoadThrows(dts, sql, catalog)(w.trace[i])
    {
      assert w.trace[i] in w.trace;
    }
    EndsAtFirstAgree(w, FolderWalker.Throws(s, src), LoadThrows(dts, sql, catalog));
  }

  lemma CatalogEnds(dts: Store, sql: Store, catalog: Catalog, found: seq<PackageDescriptor>, t: seq<Effect>, rec: ProgressRecord)
    requires forall i :: 0 <= i < |t| ==> !LoadThrows(dts, sql, catalog)(t[i])
    ensures EndsAtFirst(Outcome(LoadFromCatalog(catalog, found, t, rec)), LoadThrows(dts, sql, catalog))
  {
    var p := LoadThrows(dts, sql, catalog);
    var r2 := CatalogPhaseRecord(rec);
    var k := CatalogRun(catalog, r2);
    CatalogEndsAtFirstThrow(catalog, r2);
    CatalogInCatalog(catalog, r2);
    forall i | 0 <= i < |k.trace|
      ensures CatalogWalker.Throws(catalog)(k.trace[i]) == p(k.trace[i])
    {
      assert k.trace[i] in k.trace;
    }
    EndsAtFirstAgree(k, CatalogWalker.Throws(catalog), p);
    StageEnds(t, r2, k, p);
    if k.result.Some? {
      var t' := t + [WriteProgress(r2)] + k.trace;
      var u := t' + [WriteProgress(DoneRecord(After(r2, k.trace)))];
      forall i | 0 <= i < |u|
        ensures !p(u[i])
      {
        if i < |t'| {
          assert u[i] == t'[i];
        }
      }
    }
  }

  lemma SqlEnds(dts: Store, sql: Store, catalog: Catalog, found: seq<PackageDescriptor>, t: seq<Effect>, rec: ProgressRecord)
    requires Acyclic(dts) && Acyclic(sql)
    requires forall i :: 0 <= i < |t| ==> !LoadThrows(dts, sql, catalog)(t[i])
    ensures EndsAtFirst(Outcome(LoadFromSql(sql, catalog, found, t, rec)), LoadThrows(dts, sql, catalog))
  {
    var p := LoadThrows(dts, sql, catalog);
    var r1 := SqlRecord(rec);
    var q := Walk(sql, Sql, r1, "");
    WalkThrowsAsLoad(dts, sql, catalog, Sql, r1);
    StageEnds(t, r1, q, p);
    if q.result.Some? {
      CatalogEnds(dts, sql, catalog, found + q.result.value, t + [WriteProgress(r1)] + q.trace, After(r1, q.trace));
    }
  }

  /** A load stops at the first call that throws: it fails to complete
      exactly when one of its calls throws, and that call is then its last
      interaction. */
  lemma LoadEndsAtFirstThrow(dts: Store, sql: Store, catalog: Catalog)
    requires Acyclic(dts) && Acyclic(sql)
    ensures EndsAtFirst(Outcome(LoadAll(dts, sql, catalog)), LoadThrows(dts, sql, catalog))
  {
    var p := LoadThrows(dts, sql, catalog);
    var r0 := InitialRecord();
    var d := Walk(dts, Dts, r0, "");
    WalkThrowsAsLoad(dts, sql, catalog, Dts, r0);
    StageEnds([], r0, d, p);
    assert [] + [WriteProgress(r0)] + d.trace == [WriteProgress(r0)] + d.trace;
    if d.result.Some? {
      SqlEnds(dts, sql, catalog, d.result.value, [WriteProgress(r0)] + d.trace, After(r0, d.trace));
    }
  }

  // ----- the drive and the root node factory -----

  /** The drive, reduced to its shared package list. */
  class BipsDrive {
    var packages: seq<PackageDescriptor>

    constructor()
      ensures packages == []
    {
      packages := [];
    }
  }

  /** The factory of the drive's root children. The package stores and the
      catalog it loads from are fixed for the factory's lifetime. */
  class BipsRootNodeFactory {
    const drive: BipsDrive
    const dts: Store
    const sql: Store
    const catalog: Catalog

    ghost predicate Valid()
    {
      Acyclic(dts) && Acyclic(sql)
    }

    constructor(drive: BipsDrive, dts: Store, sql: Store, catalog: Catalog)
      requires Acyclic(dts) && Acyclic(sql)
      ensures Valid()
      ensures this.drive == drive && this.dts == dts && this.sql == sql && this.catalog == catalog
    {
      this.drive := drive;
      this.dts := dts;
      this.sql := sql;
      this.catalog := catalog;
    }

    /** The root's children. The package list is loaded only when the drive
        holds none; a loaded list is sorted by name. A loader that throws
        ends the call without children, leaving the packages appended so
        far, unsorted, in the drive. */
    method GetNodeChildren(nameLe: (string, string) -> bool)
      returns (nodes: Option<seq<NodeFactory>>, trace: seq<Effect>)
      requires Valid() && TotalPreorder(nameLe)
      modifies drive
      ensures old(drive.packages) != [] ==> trace == [] && drive.packages == old(drive.packages)
      ensures old(drive.packages) == [] ==>
        var l := LoadAll(dts, sql, catalog);
        && trace == l.trace
        && (l.completed ==> Sorted(nameLe, drive.packages) && multiset(drive.packages) == multiset(l.found))
        && (!l.completed ==> drive.packages == l.found)
      ensures nodes.Some? <==> old(drive.packages) != [] || LoadAll(dts, sql, catalog).completed
      ensures nodes.Some? ==>
        NodeNames(nodes.value) == MetadataNames + ["Packages"] && nodes.value[5] == PackagesNode(drive.packages)
    {
      var common := GetCommonNodeFactories([]);
      trace := [];
      nodes := None;
      var loaded := true;
      if drive.packages == [] {
        loaded, trace := LoadPackages(nameLe);
      }
      if loaded {
        nodes := Some(common + [PackagesNode(drive.packages)]);
        assert NodeNames(common + [PackagesNode(drive.packages)]) == NodeNames(common) + ["Packages"];
      }
    }

    /** The guarded part of `GetNodeChildren`: load DTS, msdb and catalog
        packages into the empty list in turn, writing progress, and sort the
        list once all three returned. A throw keeps what the earlier sources
        added. */
    method LoadPackages(nameLe: (string, string) -> bool) returns (completed: bool, trace: seq<Effect>)
      requires Valid() && TotalPreorder(nameLe)
      requires drive.packages == []
      modifies drive
      ensures var l := LoadAll(dts, sql, catalog);
        && completed == l.completed
        && trace == l.trace
        && (completed ==> Sorted(nameLe, drive.packages) && multiset(drive.packages) == multiset(l.found))
        && (!completed ==> drive.packages == l.found)
    {
      completed := false;
      ghost var l := LoadAll(dts, sql, catalog);
      var progress := InitialRecord();
      trace := [WriteProgress(progress)];
      var d := Walk(dts, Dts, progress, "");
      trace := trace + d.trace;
      if d.result.Some? {
        assert l == LoadFromSql(sql, catalog, d.result.value, trace, After(progress, d.trace));
        assert drive.packages + d.result.value == d.result.value;
        drive.packages := drive.packages + d.result.value;
        progress := SqlRecord(After(progress, d.trace));
        trace := trace + [WriteProgress(progress)];
        var q := Walk(sql, Sql, progress, "");
        trace := trace + q.trace;
        if q.result.Some? {
          assert l == LoadFromCatalog(catalog, drive.packages + q.result.value, trace, After(progress, q.trace));
          drive.packages := drive.packages + q.result.value;
          progress := CatalogPhaseRecord(After(progress, q.trace));
          trace := trace + [WriteProgress(progress)];
          var k, calls, after := LoadCatalogPackages(catalog, progress);
          trace := trace + calls;
          if k.Some? {
            assert l.found == drive.packages + k.value;
            drive.packages := drive.packages + k.value;
            drive.packages := SortByName(drive.packages, nameLe);
            progress := DoneRecord(after);
            trace := trace + [WriteProgress(progress)];
            completed := true;
          }
        }
      }
    }
  }

  /** Listing the root of a fresh drive twice: the second listing loads
      again exactly when the first one found no package at all, and
      otherwise serves the drive's list without any call, even when the
      first load threw part-way. */
  method ListRootTwice(f: BipsRootNodeFactory, nameLe: (string, string) -> bool)
    returns (first: seq<Effect>, second: seq<Effect>)
    requires f.Valid() && TotalPreorder(nameLe)
    requires f.drive.packages == []
    modifies f.drive
    ensures first == LoadAll(f.dts, f.sql, f.catalog).trace
    ensures second == if LoadAll(f.dts, f.sql, f.catalog).found == [] then first else []
  {
    var nodes;
    nodes, first := f.GetNodeChildren(nameLe);
    ghost var found := LoadAll(f.dts, f.sql, f.catalog).found;
    assert f.drive.packages == [] <==> found == [] by {
      assert |multiset(f.drive.packages)| == |f.drive.packages|;
      assert |multiset(found)| == |found|;
    }
    nodes, second := f.GetNodeChildren(nameLe);
  }
}
