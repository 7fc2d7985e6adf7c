/** The two keyed comparisons: broker positions against the local blotter, and the legacy
    export against the ledger projection. */
module FillReconciliation {
  import opened Wrappers

  // ----- positions

  /** Absent quantities are zero. */
  datatype BrokerPosition = BrokerPosition(symbol: string, units: real, qty: real) {
    function Held(): real {
      if units != 0.0 then units else qty
    }
  }

  datatype LocalPosition = LocalPosition(symbol: string, units: real)

  datatype Kind = UnregisteredBrokerPosition | QuantityMismatch | MissingOnBroker

  datatype Discrepancy = Discrepancy(kind: Kind, symbol: string, brokerUnits: real, localUnits: real)

  /** A `Map` built from a list: the last entry of a key stands. */
  function BrokerMap(broker: seq<BrokerPosition>): map<string, real> {
    if broker == [] then map[]
    else BrokerMap(broker[..|broker| - 1])[broker[|broker| - 1].symbol := broker[|broker| - 1].Held()]
  }

  function LocalMap(local: seq<LocalPosition>): map<string, real> {
    if local == [] then map[]
    else LocalMap(local[..|local| - 1])[local[|local| - 1].symbol := local[|local| - 1].units]
  }

  function BrokerEntry(b: BrokerPosition, local: map<string, real>): seq<Discrepancy> {
    if b.symbol !in local then [Discrepancy(UnregisteredBrokerPosition, b.symbol, b.Held(), 0.0)]
    else if local[b.symbol] != b.Held() then [Discrepancy(QuantityMismatch, b.symbol, b.Held(), local[b.symbol])]
    else []
  }

  function LocalEntry(l: LocalPosition, broker: map<string, real>): seq<Discrepancy> {
    if l.symbol !in broker then [Discrepancy(MissingOnBroker, l.symbol, 0.0, l.units)] else []
  }

  function BrokerPass(broker: seq<BrokerPosition>, local: map<string, real>): seq<Discrepancy> {
    if broker == [] then []
    else BrokerPass(broker[..|broker| - 1], local) + BrokerEntry(broker[|broker| - 1], local)
  }

  function LocalPass(local: seq<LocalPosition>, broker: map<string, real>): seq<Discrepancy> {
    if local == [] then []
    else LocalPass(local[..|local| - 1], broker) + LocalEntry(local[|local| - 1], broker)
  }

  function Discrepancies(broker: seq<BrokerPosition>, local: seq<LocalPosition>): seq<Discrepancy> {
    BrokerPass(broker, LocalMap(local)) + LocalPass(local, BrokerMap(broker))
  }

  method BuildMaps(broker: seq<BrokerPosition>, local: seq<LocalPosition>)
    returns (brokerMap: map<string, real>, localMap: map<string, real>)
    ensures brokerMap == BrokerMap(broker) && localMap == LocalMap(local)
  {
    brokerMap, localMap := map[], map[];
    for k := 0 to |broker|
      invariant brokerMap == BrokerMap(broker[..k])
    {
      assert broker[..k + 1][..k] == broker[..k];
      brokerMap := brokerMap[broker[k].symbol := broker[k].Held()];
    }
    for k := 0 to |local|
      invariant localMap == LocalMap(local[..k])
    {
      assert local[..k + 1][..k] == local[..k];
      localMap := localMap[local[k].symbol := local[k].units];
    }
    assert broker[..|broker|] == broker && local[..|local|] == local;
  }

  method Reconcile(broker: seq<BrokerPosition>, local: seq<LocalPosition>)
    returns (clean: bool, discrepancies: seq<Discrepancy>)
    ensures discrepancies == Discrepancies(broker, local)
    ensures clean == (discrepancies == [])
  {
    var brokerMap, localMap := BuildMaps(broker, local);
    discrepancies := [];
    for k := 0 to |broker|
      invariant discrepancies == BrokerPass(broker[..k], localMap)
    {
      assert broker[..k + 1][..k] == broker[..k];
      discrepancies := discrepancies + BrokerEntry(broker[k], localMap);
    }
    assert broker[..|broker|] == broker;
    for k := 0 to |local|
      invariant discrepancies == BrokerPass(broker, localMap) + LocalPass(local[..k], brokerMap)
    {
      assert local[..k + 1][..k] == local[..k];
      discrepancies := discrepancies + LocalEntry(local[k], brokerMap);
    }
    assert local[..|local|] == local;
    clean := |discrepancies| == 0;
  }

  // ----- the report as a patch

  function Apply(m: map<string, real>, ds: seq<Discrepancy>): map<string, real> {
    if ds == [] then m
    else
      var before, d := Apply(m, ds[..|ds| - 1]), ds[|ds| - 1];
      if d.kind.MissingOnBroker? then before - {d.symbol} else before[d.symbol := d.brokerUnits]
  }

  /** Entries of one symbol agree on its units; true of any list without repeated symbols. */
  ghost predicate Consistent(broker: seq<BrokerPosition>) {
    forall j, k :: 0 <= j < k < |broker| && broker[j].symbol == broker[k].symbol ==>
      broker[j].Held() == broker[k].Held()
  }

  lemma {:induction false} BrokerMapMeaning(broker: seq<BrokerPosition>, s: string)
    ensures s in BrokerMap(broker) <==> exists k :: 0 <= k < |broker| && broker[k].symbol == s
    ensures Consistent(broker) ==> forall k :: 0 <= k < |broker| && broker[k].symbol == s ==>
      BrokerMap(broker)[s] == broker[k].Held()
  {
    if broker != [] {
      var front := broker[..|broker| - 1];
      assert broker == front + [broker[|broker| - 1]];
      BrokerMapMeaning(front, s);
      if k :| 0 <= k < |front| && front[k].symbol == s {
        assert broker[k].symbol == s;
      }
      if broker[|broker| - 1].symbol == s {
        assert broker[|broker| - 1].symbol == s;
      }
    }
  }

  lemma {:induction false} LocalMapMeaning(local: seq<LocalPosition>, s: string)
    ensures s in LocalMap(local) <==> exists k :: 0 <= k < |local| && local[k].symbol == s
  {
    if local != [] {
      var front := local[..|local| - 1];
      LocalMapMeaning(front, s);
      if k :| 0 <= k < |front| && front[k].symbol == s {
        assert local[k].symbol == s;
      }
      if local[|local| - 1].symbol == s {
        assert local[|local| - 1].symbol == s;
      }
    }
  }

  /** The last entry of a symbol stands, and its units count unless they are zero. */
  lemma {:induction false} LastBrokerEntryStands(broker: seq<BrokerPosition>, k: nat)
    requires k < |broker| && forall j :: k < j < |broker| ==> broker[j].symbol != broker[k].symbol
    ensures broker[k].symbol in BrokerMap(broker)
    ensures BrokerMap(broker)[broker[k].symbol]
      == if broker[k].units == 0.0 then broker[k].qty else broker[k].units
  {
    if k < |broker| - 1 {
      LastBrokerEntryStands(broker[..|broker| - 1], k);
    }
  }

  lemma {:induction false} LastLocalEntryStands(local: seq<LocalPosition>, k: nat)
    requires k < |local| && forall j :: k < j < |local| ==> local[j].symbol != local[k].symbol
    ensures local[k].symbol in LocalMap(local) && LocalMap(local)[local[k].symbol] == local[k].units
  {
    if k < |local| - 1 {
      LastLocalEntryStands(local[..|local| - 1], k);
    }
  }

  /** Every reported entry comes from an input entry of its pass, and every input entry that differs is reported. */
  lemma {:induction false} BrokerPassMeaning(broker: seq<BrokerPosition>, local: map<string, real>)
    ensures forall d :: d in BrokerPass(broker, local) ==>
      exists k :: 0 <= k < |broker| && BrokerEntry(broker[k], local) == [d]
    ensures forall k :: 0 <= k < |broker| && BrokerEntry(broker[k], local) != [] ==>
      BrokerEntry(broker[k], local)[0] in BrokerPass(broker, local)
  {
    if broker != [] {
      var front, last := broker[..|broker| - 1], |broker| - 1;
      BrokerPassMeaning(front, local);
      forall d | d in BrokerPass(broker, local)
        ensures exists k :: 0 <= k < |broker| && BrokerEntry(broker[k], local) == [d]
      {
        if d in BrokerPass(front, local) {
          var k :| 0 <= k < |front| && BrokerEntry(front[k], local) == [d];
          assert BrokerEntry(broker[k], local) == [d];
        } else {
          assert BrokerEntry(broker[last], local) == [d];
        }
      }
      forall k | 0 <= k < |broker| && BrokerEntry(broker[k], local) != []
        ensures BrokerEntry(broker[k], local)[0] in BrokerPass(broker, local) {
        if k < last {
          assert front[k] == broker[k];
        }
      }
    }
  }

  lemma {:induction false} LocalPassMeaning(local: seq<LocalPosition>, broker: map<string, real>)
    ensures forall d :: d in LocalPass(local, broker) ==>
      exists k :: 0 <= k < |local| && LocalEntry(local[k], broker) == [d]
    ensures forall k :: 0 <= k < |local| && LocalEntry(local[k], broker) != [] ==>
      LocalEntry(local[k], broker)[0] in LocalPass(local, broker)
  {
    if local != [] {
      var front, last := local[..|local| - 1], |local| - 1;
      LocalPassMeaning(front, broker);
      forall d | d in LocalPass(local, broker)
        ensures exists k :: 0 <= k < |local| && LocalEntry(local[k], broker) == [d]
      {
        if d in LocalPass(front, broker) {
          var k :| 0 <= k < |front| && LocalEntry(front[k], broker) == [d];
          assert LocalEntry(local[k], broker) == [d];
        } else {
          assert LocalEntry(local[last], broker) == [d];
        }
      }
      forall k | 0 <= k < |local| && LocalEntry(local[k], broker) != []
        ensures LocalEntry(local[k], broker)[0] in LocalPass(local, broker) {
        if k < last {
          assert front[k] == local[k];
        }
      }
    }
  }

  /** What a patch does to one symbol, when its entries for that symbol agree. */
  lemma {:induction false} ApplyAt(m: map<string, real>, ds: seq<Discrepancy>, s: string, u: real)
    requires forall d :: d in ds && d.symbol == s && !d.kind.MissingOnBroker? ==> d.brokerUnits == u
    requires
      || (forall d :: d in ds && d.symbol == s ==> d.kind.MissingOnBroker?)
      || (forall d :: d in ds && d.symbol == s ==> !d.kind.MissingOnBroker?)
    ensures var r := Apply(m, ds);
      if !(exists d :: d in ds && d.symbol == s) then (s in r <==> s in m) && (s in m ==> r[s] == m[s])
      else if (exists d :: d in ds && d.symbol == s && d.kind.MissingOnBroker?) then s !in r
      else s in r && r[s] == u
  {
    if ds != [] {
      var front, d := ds[..|ds| - 1], ds[|ds| - 1];
      assert forall x :: x in ds <==> x in front || x == d by {
        assert ds == front + [d];
      }
      ApplyAt(m, front, s, u);
    }
  }

  /** What the report says about one symbol. */
  lemma ReportAt(broker: seq<BrokerPosition>, local: seq<LocalPosition>, s: string)
    requires Consistent(broker)
    ensures var ds, bm, lm := Discrepancies(broker, local), BrokerMap(broker), LocalMap(local);
      && (forall d :: d in ds && d.symbol == s ==>
           if s in bm then !d.kind.MissingOnBroker? && d.brokerUnits == bm[s] else d.kind.MissingOnBroker?)
      && ((exists d :: d in ds && d.symbol == s) <==>
           (s in bm <==> s !in lm) || (s in bm && s in lm && bm[s] != lm[s]))
  {
    var ds, bm, lm := Discrepancies(broker, local), BrokerMap(broker), LocalMap(local);
    BrokerMapMeaning(broker, s);
    LocalMapMeaning(local, s);
    BrokerPassMeaning(broker, lm);
    LocalPassMeaning(local, bm);
    hide BrokerMap, LocalMap, BrokerPass, LocalPass;
    forall d | d in ds && d.symbol == s
      ensures if s in bm then !d.kind.MissingOnBroker? && d.brokerUnits == bm[s] else d.kind.MissingOnBroker?
      ensures (s in bm <==> s !in lm) || (s in bm && s in lm && bm[s] != lm[s])
    {
      if d in BrokerPass(broker, lm) {
        var k :| 0 <= k < |broker| && BrokerEntry(broker[k], lm) == [d];
      } else {
        var k :| 0 <= k < |local| && LocalEntry(local[k], bm) == [d];
      }
    }
    if s in bm && (s !in lm || bm[s] != lm[s]) {
      var k :| 0 <= k < |broker| && broker[k].symbol == s;
      assert BrokerEntry(broker[k], lm)[0] in ds;
    }
    if s in lm && s !in bm {
      var k :| 0 <= k < |local| && local[k].symbol == s;
      assert LocalEntry(local[k], bm)[0] in ds;
    }
  }

  /** Applying the reported discrepancies to the local blotter yields exactly the broker's positions. */
  lemma ReportIsCompletePatch(broker: seq<BrokerPosition>, local: seq<LocalPosition>)
    requires Consistent(broker)
    ensures Apply(LocalMap(local), Discrepancies(broker, local)) == BrokerMap(broker)
  {
    var ds, bm, lm := Discrepancies(broker, local), BrokerMap(broker), LocalMap(local);
    hide Discrepancies, BrokerMap, LocalMap, Apply, Consistent;
    var r := Apply(lm, ds);
    forall s ensures (s in r <==> s in bm) && (s in bm ==> r[s] == bm[s]) {
      ReportAt(broker, local, s);
      ApplyAt(lm, ds, s, if s in bm then bm[s] else 0.0);
    }
  }

  ghost predicate ConsistentLocal(local: seq<LocalPosition>) {
    forall j, k :: 0 <= j < k < |local| && local[j].symbol == local[k].symbol ==> local[j].units == local[k].units
  }

  lemma {:induction false} LocalUnits(local: seq<LocalPosition>, s: string)
    requires ConsistentLocal(local)
    ensures forall k :: 0 <= k < |local| && local[k].symbol == s ==>
      s in LocalMap(local) && LocalMap(local)[s] == local[k].units
  {
    if local != [] {
      var front := local[..|local| - 1];
      LocalUnits(front, s);
      assert forall k :: 0 <= k < |front| ==> front[k] == local[k];
    }
  }

  /** The report read from the other side. */
  function Mirrored(d: Discrepancy): Discrepancy {
    var kind := match d.kind
      case UnregisteredBrokerPosition => MissingOnBroker
      case MissingOnBroker => UnregisteredBrokerPosition
      case QuantityMismatch => QuantityMismatch;
    Discrepancy(kind, d.symbol, d.localUnits, d.brokerUnits)
  }

  function MirroredAll(ds: seq<Discrepancy>): (r: seq<Discrepancy>)
    ensures |r| == |ds| && forall k :: 0 <= k < |ds| ==> r[k] == Mirrored(ds[k])
  {
    seq(|ds|, k requires 0 <= k < |ds| => Mirrored(ds[k]))
  }

  lemma LocalSideOf(broker: seq<BrokerPosition>, local: seq<LocalPosition>, d: Discrepancy)
    requires ConsistentLocal(local) && d in Discrepancies(broker, local)
    ensures if d.symbol in LocalMap(local)
      then !d.kind.UnregisteredBrokerPosition? && d.localUnits == LocalMap(local)[d.symbol]
      else d.kind.UnregisteredBrokerPosition?
  {
    var bm, lm := BrokerMap(broker), LocalMap(local);
    LocalUnits(local, d.symbol);
    BrokerPassMeaning(broker, lm);
    LocalPassMeaning(local, bm);
    hide BrokerMap, LocalMap, BrokerPass, LocalPass, ConsistentLocal;
    if d in BrokerPass(broker, lm) {
      var k :| 0 <= k < |broker| && BrokerEntry(broker[k], lm) == [d];
    } else {
      var k :| 0 <= k < |local| && LocalEntry(local[k], bm) == [d];
    }
  }

  lemma MirroredMembers(ds: seq<Discrepancy>, s: string)
    ensures forall d :: d in MirroredAll(ds) ==> exists x :: x in ds && Mirrored(x) == d
    ensures (exists d :: d in MirroredAll(ds) && d.symbol == s) <==> (exists x :: x in ds && x.symbol == s)
  {
    var ms := MirroredAll(ds);
    hide MirroredAll;
    forall d | d in ms ensures exists x :: x in ds && Mirrored(x) == d {
      var i :| 0 <= i < |ms| && ms[i] == d;
      assert ds[i] in ds;
    }
    if x :| x in ds && x.symbol == s {
      var i :| 0 <= i < |ds| && ds[i] == x;
      assert ms[i] in ms;
    }
  }

  lemma MirrorReportAt(broker: seq<BrokerPosition>, local: seq<LocalPosition>, s: string)
    requires Consistent(broker) && ConsistentLocal(local)
    ensures var ms, bm, lm := MirroredAll(Discrepancies(broker, local)), BrokerMap(broker), LocalMap(local);
      && (forall d :: d in ms && d.symbol == s ==>
           if s in lm then !d.kind.MissingOnBroker? && d.brokerUnits == lm[s] else d.kind.MissingOnBroker?)
      && ((exists d :: d in ms && d.symbol == s) <==>
           (s in bm <==> s !in lm) || (s in bm && s in lm && bm[s] != lm[s]))
  {
    hide Discrepancies, MirroredAll, BrokerMap, LocalMap, Consistent, ConsistentLocal;
    var ds, ms, lm := Discrepancies(broker, local), MirroredAll(Discrepancies(broker, local)), LocalMap(local);
    ReportAt(broker, local, s);
    MirroredMembers(ds, s);
    forall d | d in ms && d.symbol == s
      ensures if s in lm then !d.kind.MissingOnBroker? && d.brokerUnits == lm[s] else d.kind.MissingOnBroker?
    {
      var x :| x in ds && Mirrored(x) == d;
      LocalSideOf(broker, local, x);
    }
  }

  /** Both quantities in the report are right: read backwards, it turns the broker's positions
      into the local blotter. */
  lemma ReportIsReversiblePatch(broker: seq<BrokerPosition>, local: seq<LocalPosition>)
    requires Consistent(broker) && ConsistentLocal(local)
    ensures Apply(BrokerMap(broker), MirroredAll(Discrepancies(broker, local))) == LocalMap(local)
  {
    var ms, bm, lm := MirroredAll(Discrepancies(broker, local)), BrokerMap(broker), LocalMap(local);
    hide Discrepancies, MirroredAll, BrokerMap, LocalMap, Apply, Consistent, ConsistentLocal;
    var r := Apply(bm, ms);
    forall s ensures (s in r <==> s in lm) && (s in lm ==> r[s] == lm[s]) {
      MirrorReportAt(broker, local, s);
      ApplyAt(bm, ms, s, if s in lm then lm[s] else 0.0);
    }
  }

  /** What each entry of the report says, for lists that do not contradict themselves: the kind
      names the side where the symbol is absent, whose quantity is zero; the others are the map's. */
  lemma ReportMeaning(broker: seq<BrokerPosition>, local: seq<LocalPosition>, d: Discrepancy)
    requires Consistent(broker) && ConsistentLocal(local) && d in Discrepancies(broker, local)
    ensures var bm, lm := BrokerMap(broker), LocalMap(local);
      && (d.symbol in bm || d.symbol in lm)
      && (d.kind.MissingOnBroker? <==> d.symbol !in bm)
      && (d.kind.UnregisteredBrokerPosition? <==> d.symbol !in lm)
      && d.brokerUnits == (if d.symbol in bm then bm[d.symbol] else 0.0)
      && d.localUnits == (if d.symbol in lm then lm[d.symbol] else 0.0)
  {
    var bm, lm := BrokerMap(broker), LocalMap(local);
    LocalUnits(local, d.symbol);
    BrokerMapMeaning(broker, d.symbol);
    BrokerPassMeaning(broker, lm);
    LocalPassMeaning(local, bm);
    hide BrokerMap, LocalMap, BrokerPass, LocalPass, Consistent, ConsistentLocal;
    if d in BrokerPass(broker, lm) {
      var k :| 0 <= k < |broker| && BrokerEntry(broker[k], lm) == [d];
    } else {
      var k :| 0 <= k < |local| && LocalEntry(local[k], bm) == [d];
    }
  }

  /** The result is clean exactly when the two maps are equal and the broker's list does not
      contradict itself. */
  lemma CleanIff(broker: seq<BrokerPosition>, local: seq<LocalPosition>)
    ensures Discrepancies(broker, local) == [] <==> BrokerMap(broker) == LocalMap(local) && Consistent(broker)
  {
    var ds, bm, lm := Discrepancies(broker, local), BrokerMap(broker), LocalMap(local);
    if ds == [] {
      BrokerPassMeaning(broker, lm);
      forall k | 0 <= k < |broker| ensures broker[k].symbol in lm && lm[broker[k].symbol] == broker[k].Held() {
        assert BrokerEntry(broker[k], lm) == [];
      }
      assert Consistent(broker);
      forall s ensures (s in bm <==> s in lm) && (s in bm ==> bm[s] == lm[s]) {
        ReportAt(broker, local, s);
      }
    } else if bm == lm && Consistent(broker) {
      ReportAt(broker, local, ds[0].symbol);
      assert ds[0] in ds;
    }
  }

  lemma {:induction false} BrokerPassSymbols(broker: seq<BrokerPosition>, local: map<string, real>)
    requires forall j, k :: 0 <= j < k < |broker| ==> broker[j].symbol != broker[k].symbol
    ensures forall j, k :: 0 <= j < k < |BrokerPass(broker, local)| ==>
      BrokerPass(broker, local)[j].symbol != BrokerPass(broker, local)[k].symbol
  {
    if broker != [] {
      var front := broker[..|broker| - 1];
      BrokerPassSymbols(front, local);
      BrokerPassMeaning(front, local);
      forall j | 0 <= j < |BrokerPass(front, local)|
        ensures BrokerPass(front, local)[j].symbol != broker[|broker| - 1].symbol
      {
        assert BrokerPass(front, local)[j] in BrokerPass(front, local);
        var k :| 0 <= k < |front| && BrokerEntry(front[k], local) == [BrokerPass(front, local)[j]];
        assert front[k] == broker[k];
      }
    }
  }

  lemma {:induction false} LocalPassSymbols(local: seq<LocalPosition>, broker: map<string, real>)
    requires forall j, k :: 0 <= j < k < |local| ==> local[j].symbol != local[k].symbol
    ensures forall j, k :: 0 <= j < k < |LocalPass(local, broker)| ==>
      LocalPass(local, broker)[j].symbol != LocalPass(local, broker)[k].symbol
  {
    if local != [] {
      var front := local[..|local| - 1];
      LocalPassSymbols(front, broker);
      LocalPassMeaning(front, broker);
      forall j | 0 <= j < |LocalPass(front, broker)|
        ensures LocalPass(front, broker)[j].symbol != local[|local| - 1].symbol
      {
        assert LocalPass(front, broker)[j] in LocalPass(front, broker);
        var k :| 0 <= k < |front| && LocalEntry(front[k], broker) == [LocalPass(front, broker)[j]];
        assert front[k] == local[k];
      }
    }
  }

  /** For lists without repeated symbols no symbol is reported twice. */
  lemma EachSymbolReportedOnce(broker: seq<BrokerPosition>, local: seq<LocalPosition>)
    requires forall j, k :: 0 <= j < k < |broker| ==> broker[j].symbol != broker[k].symbol
    requires forall j, k :: 0 <= j < k < |local| ==> local[j].symbol != local[k].symbol
    ensures var ds := Discrepancies(broker, local);
      forall j, k :: 0 <= j < k < |ds| ==> ds[j].symbol != ds[k].symbol
  {
    var bm, lm := BrokerMap(broker), LocalMap(local);
    var b, l, ds := BrokerPass(broker, lm), LocalPass(local, bm), Discrepancies(broker, local);
    BrokerPassSymbols(broker, lm);
    LocalPassSymbols(local, bm);
    BrokerPassMeaning(broker, lm);
    LocalPassMeaning(local, bm);
    hide BrokerPass, LocalPass, BrokerMap, LocalMap;
    forall j, k | 0 <= j < |b| && 0 <= k < |l| ensures b[j].symbol != l[k].symbol {
      assert b[j] in b && l[k] in l;
      var x :| 0 <= x < |broker| && BrokerEntry(broker[x], lm) == [b[j]];
      var y :| 0 <= y < |local| && LocalEntry(local[y], bm) == [l[k]];
      BrokerMapMeaning(broker, b[j].symbol);
    }
  }

  // ----- the legacy export

  datatype Record = Record(id: string, name: Option<string>, jurisdiction: Option<string>)

  datatype Side = Legacy | Ledger
  datatype Parity = MissingFrom(id: string, source: Side) | Changed(id: string)

  function ById(records: seq<Record>): map<string, Record> {
    if records == [] then map[]
    else ById(records[..|records| - 1])[records[|records| - 1].id := records[|records| - 1]]
  }

  /** What the comparison says about an id; `source` names the side that has it. */
  function ParityOf(left: map<string, Record>, right: map<string, Record>, id: string): Option<Parity> {
    if id in left then
      if id !in right then Some(MissingFrom(id, Legacy))
      else if left[id] != right[id] then Some(Changed(id))
      else None
    else if id in right then Some(MissingFrom(id, Ledger))
    else None
  }

  ghost predicate Reports(ps: seq<Parity>, left: map<string, Record>, right: map<string, Record>, ids: set<string>) {
    && (forall j, k :: 0 <= j < k < |ps| ==> ps[j].id != ps[k].id)
    && (forall k :: 0 <= k < |ps| ==> ps[k].id in ids && ParityOf(left, right, ps[k].id) == Some(ps[k]))
    && (forall i :: i in ids && ParityOf(left, right, i).Some? ==> ParityOf(left, right, i).value in ps)
  }

  /** The diff of `compareLegacyExport`: two loops over the keys of two maps. */
  method CompareLegacy(legacy: seq<Record>, ledger: seq<Record>) returns (matched: bool, differences: seq<Parity>)
    ensures Reports(differences, ById(legacy), ById(ledger), ById(legacy).Keys + ById(ledger).Keys)
    ensures matched == (differences == [])
  {
    var left, right := ById(legacy), ById(ledger);
    hide ById;
    differences := [];
    var todo := left.Keys;
    ghost var done: set<string> := {};
    while todo != {}
      invariant done + todo == left.Keys && done !! todo
      invariant Reports(differences, left, right, done)
      decreases todo
    {
      var id :| id in todo;
      if id !in right {
        differences := differences + [MissingFrom(id, Legacy)];
      } else if left[id] != right[id] {
        differences := differences + [Changed(id)];
      }
      todo, done := todo - {id}, done + {id};
    }
    todo := right.Keys;
    ghost var seen: set<string> := {};
    while todo != {}
      invariant seen + todo == right.Keys && seen !! todo
      invariant Reports(differences, left, right, left.Keys + seen)
      decreases todo
    {
      var id :| id in todo;
      if id !in left {
        differences := differences + [MissingFrom(id, Ledger)];
      }
      todo, seen := todo - {id}, seen + {id};
    }
    assert seen == right.Keys;
    matched := |differences| == 0;
  }

  /** Matched means the two id-to-record maps are one map; and the report names exactly the ids where they differ. */
  lemma LegacyMatchedIff(legacy: seq<Record>, ledger: seq<Record>, differences: seq<Parity>)
    requires Reports(differences, ById(legacy), ById(ledger), ById(legacy).Keys + ById(ledger).Keys)
    ensures differences == [] <==> ById(legacy) == ById(ledger)
    ensures forall id :: (exists p :: p in differences && p.id == id) <==>
      || (id in ById(legacy) <==> id !in ById(ledger))
      || (id in ById(legacy) && id in ById(ledger) && ById(legacy)[id] != ById(ledger)[id])
  {
    var left, right := ById(legacy), ById(ledger);
    hide ById;
    forall id ensures (exists p :: p in differences && p.id == id) <==>
      (id in left <==> id !in right) || (id in left && id in right && left[id] != right[id])
    {
      if ParityOf(left, right, id).Some? {
        assert id in left.Keys + right.Keys;
        assert ParityOf(left, right, id).value in differences;
      }
      if p :| p in differences && p.id == id {
        var k :| 0 <= k < |differences| && differences[k] == p;
        assert ParityOf(left, right, differences[k].id) == Some(differences[k]);
      }
    }
    if differences == [] {
      assert forall id :: id in left.Keys + right.Keys ==> ParityOf(left, right, id).None?;
    } else {
      assert ParityOf(left, right, differences[0].id) == Some(differences[0]);
    }
  }

  lemma {:induction false} LastRecordStands(records: seq<Record>, k: nat)
    requires k < |records| && forall j :: k < j < |records| ==> records[j].id != records[k].id
    ensures records[k].id in ById(records) && ById(records)[records[k].id] == records[k]
  {
    if k < |records| - 1 {
      LastRecordStands(records[..|records| - 1], k);
    }
  }

  /** A missing record is reported under the side that has it, and a change only for an id that
      both sides have. */
  lemma ParityMeaning(legacy: seq<Record>, ledger: seq<Record>, differences: seq<Parity>, id: string)
    requires Reports(differences, ById(legacy), ById(ledger), ById(legacy).Keys + ById(ledger).Keys)
    ensures MissingFrom(id, Legacy) in differences <==> id in ById(legacy) && id !in ById(ledger)
    ensures MissingFrom(id, Ledger) in differences <==> id in ById(ledger) && id !in ById(legacy)
    ensures Changed(id) in differences <==>
      id in ById(legacy) && id in ById(ledger) && ById(legacy)[id] != ById(ledger)[id]
  {
    var left, right := ById(legacy), ById(ledger);
    hide ById;
    if id in left.Keys + right.Keys && ParityOf(left, right, id).Some? {
      assert ParityOf(left, right, id).value in differences;
    }
    forall p | p in differences && p.id == id ensures ParityOf(left, right, id) == Some(p) {
      var k :| 0 <= k < |differences| && differences[k] == p;
    }
  }
}
