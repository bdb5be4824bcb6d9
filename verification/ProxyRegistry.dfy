/** The gateway's proxy registry: per application a list that is kept as if it were a map. */
module ProxyRegistry {
  import opened Text

  datatype ProxyInfo = ProxyInfo(
    appId: Option<string>, appName: Option<string>, proxyAddress: Option<string>,
    rewriteUrl: Option<bool>, echoText: Option<string>, proxyPrefix: Option<string>,
    proxyToken: Option<string>, loadAvg: Option<real>, loadCount: Option<nat>,
    healthStatus: Option<nat>, livingTime: Option<string>)

  type Key = (Option<string>, Option<string>)

  function KeyOf(p: ProxyInfo): Key {
    (p.appName, p.proxyAddress)
  }

  function AppOf(k: Key): string {
    match k.0 case Some(name) => name case None => ""
  }

  /** The entry with the health, load and token of a newer report. */
  function Refreshed(p: ProxyInfo, dt: ProxyInfo): ProxyInfo {
    p.(healthStatus := dt.healthStatus, loadAvg := dt.loadAvg, proxyToken := dt.proxyToken)
  }

  function Updated(p: ProxyInfo, dt: ProxyInfo): ProxyInfo {
    if KeyOf(p) == KeyOf(dt) then Refreshed(p, dt) else p
  }

  predicate Has(list: seq<ProxyInfo>, k: Key) {
    exists i :: 0 <= i < |list| && KeyOf(list[i]) == k
  }

  function Upserted(list: seq<ProxyInfo>, dt: ProxyInfo): seq<ProxyInfo> {
    if Has(list, KeyOf(dt)) then
      seq(|list|, i requires 0 <= i < |list| => Updated(list[i], dt))
    else list + [dt]
  }

  function Added(lists: map<string, seq<ProxyInfo>>, dt: ProxyInfo): map<string, seq<ProxyInfo>> {
    var app := AppOf(KeyOf(dt));
    lists[app := if app in lists then Upserted(lists[app], dt) else [dt]]
  }

  class GatewayProxyManagement {
    const appName: string
    var proxyList: seq<ProxyInfo>

    constructor (appName: string, proxyList: seq<ProxyInfo>)
      ensures this.appName == appName && this.proxyList == proxyList
    {
      this.appName := appName;
      this.proxyList := proxyList;
    }

    method InsertOrUpdateProxyInfo(dt: ProxyInfo)
      modifies this
      ensures proxyList == Upserted(old(proxyList), dt)
    {
      var found := false;
      for i := 0 to |proxyList|
        invariant |proxyList| == |old(proxyList)|
        invariant found <==> exists j :: 0 <= j < i && KeyOf(old(proxyList)[j]) == KeyOf(dt)
        invariant forall j | 0 <= j < i :: proxyList[j] == Updated(old(proxyList)[j], dt)
        invariant forall j | i <= j < |proxyList| :: proxyList[j] == old(proxyList)[j]
      {
        var bit := proxyList[i];
        if bit.appName == dt.appName && bit.proxyAddress == dt.proxyAddress {
          proxyList := proxyList[i := Refreshed(bit, dt)];
          found := true;
        }
      }
      if !found {
        assert proxyList == old(proxyList);
        proxyList := proxyList + [dt];
      }
    }
  }

  class Registry {
    var managers: map<string, GatewayProxyManagement>

    /** Every application has its own manager. */
    ghost predicate Valid()
      reads this
    {
      && (forall a | a in managers :: managers[a].appName == a)
    }

    ghost function Lists(): map<string, seq<ProxyInfo>>
      reads this, managers.Values
    {
      map a | a in managers :: managers[a].proxyList
    }

    constructor ()
      ensures Valid() && Lists() == map[]
    {
      managers := map[];
    }

    method AddProxyInfo(dt: ProxyInfo) returns (added: bool)
      requires Valid()
      modifies this, managers.Values
      ensures Valid() && added
      ensures Lists() == Added(old(Lists()), dt)
      ensures forall m | m in managers.Values :: m in old(managers.Values) || fresh(m)
    {
      var appName := match dt.appName case Some(name) => name case None => "";
      if appName in managers {
        managers[appName].InsertOrUpdateProxyInfo(dt);
      } else {
        var manager := new GatewayProxyManagement(appName, [dt]);
        managers := managers[appName := manager];
      }
      return true;
    }
  }

  // ---- over every sequence of reports -----------------------------------------------------------------

  function AddedAll(dts: seq<ProxyInfo>): map<string, seq<ProxyInfo>> {
    if dts == [] then map[] else Added(AddedAll(dts[..|dts| - 1]), dts[|dts| - 1])
  }

  predicate Reported(dts: seq<ProxyInfo>, k: Key) {
    exists i :: 0 <= i < |dts| && KeyOf(dts[i]) == k
  }

  function First(dts: seq<ProxyInfo>, k: Key): ProxyInfo
    requires Reported(dts, k)
  {
    if KeyOf(dts[0]) == k then dts[0]
    else
      assert Reported(dts[1..], k) by {
        var i :| 0 <= i < |dts| && KeyOf(dts[i]) == k;
        assert dts[1..][i - 1] == dts[i];
      }
      First(dts[1..], k)
  }

  function Last(dts: seq<ProxyInfo>, k: Key): ProxyInfo
    requires Reported(dts, k)
  {
    var n := |dts| - 1;
    if KeyOf(dts[n]) == k then dts[n]
    else
      assert Reported(dts[..n], k) by {
        var i :| 0 <= i < |dts| && KeyOf(dts[i]) == k;
        assert dts[..n][i] == dts[i];
      }
      Last(dts[..n], k)
  }

  /** What the registry should hold for a key: the first report with the health, load and token of
      the last one. */
  function Merged(dts: seq<ProxyInfo>, k: Key): ProxyInfo
    requires Reported(dts, k)
  {
    Refreshed(First(dts, k), Last(dts, k))
  }

  lemma FirstSnoc(dts: seq<ProxyInfo>, dt: ProxyInfo, k: Key)
    requires Reported(dts + [dt], k)
    ensures Reported(dts, k) ==> First(dts + [dt], k) == First(dts, k)
    ensures !Reported(dts, k) ==> KeyOf(dt) == k && First(dts + [dt], k) == dt
  {
    var all := dts + [dt];
    if dts == [] {
      assert all == [dt];
    } else if KeyOf(dts[0]) != k {
      assert all[1..] == dts[1..] + [dt];
      var i :| 0 <= i < |all| && KeyOf(all[i]) == k;
      assert all[1..][i - 1] == all[i];
      FirstSnoc(dts[1..], dt, k);
      ReportedTail(dts, k);
    } else {
      assert all[0] == dts[0];
    }
  }

  lemma ReportedTail(dts: seq<ProxyInfo>, k: Key)
    requires dts != [] && KeyOf(dts[0]) != k
    ensures Reported(dts[1..], k) <==> Reported(dts, k)
  {
    if Reported(dts, k) {
      var i :| 0 <= i < |dts| && KeyOf(dts[i]) == k;
      assert dts[1..][i - 1] == dts[i];
    }
  }

  lemma ReportedSnoc(dts: seq<ProxyInfo>, dt: ProxyInfo, k: Key)
    ensures Reported(dts + [dt], k) <==> Reported(dts, k) || KeyOf(dt) == k
  {
    var all := dts + [dt];
    if Reported(dts, k) {
      var i :| 0 <= i < |dts| && KeyOf(dts[i]) == k;
      assert all[i] == dts[i];
    }
    assert all[|dts|] == dt;
    if Reported(all, k) && KeyOf(dt) != k {
      var i :| 0 <= i < |all| && KeyOf(all[i]) == k;
      assert dts[i] == all[i];
    }
  }

  lemma MergedSnoc(dts: seq<ProxyInfo>, dt: ProxyInfo, k: Key)
    requires Reported(dts + [dt], k)
    ensures KeyOf(dt) != k ==> Reported(dts, k) && Merged(dts + [dt], k) == Merged(dts, k)
    ensures KeyOf(dt) == k ==>
              Merged(dts + [dt], k) == if Reported(dts, k) then Refreshed(Merged(dts, k), dt) else dt
  {
    ReportedSnoc(dts, dt, k);
    FirstSnoc(dts, dt, k);
    assert (dts + [dt])[..|dts|] == dts;
  }

  /** One list holds exactly the merged reports of its application, each once. */
  ghost predicate Holds(list: seq<ProxyInfo>, app: string, dts: seq<ProxyInfo>) {
    && (forall i, j | 0 <= i < j < |list| :: KeyOf(list[i]) != KeyOf(list[j]))
    && (forall i | 0 <= i < |list| ::
          AppOf(KeyOf(list[i])) == app && Reported(dts, KeyOf(list[i])) && list[i] == Merged(dts, KeyOf(list[i])))
    && (forall k | AppOf(k) == app && Reported(dts, k) :: Has(list, k))
  }

  ghost predicate Refines(lists: map<string, seq<ProxyInfo>>, dts: seq<ProxyInfo>) {
    && (forall app | app in lists :: Holds(lists[app], app, dts))
    && (forall k | Reported(dts, k) :: AppOf(k) in lists)
  }

  lemma UpsertHolds(list: seq<ProxyInfo>, app: string, dts: seq<ProxyInfo>, dt: ProxyInfo)
    requires Holds(list, app, dts) && AppOf(KeyOf(dt)) == app
    ensures Holds(Upserted(list, dt), app, dts + [dt])
  {
    hide Merged, Reported, AppOf;
    var up := Upserted(list, dt);
    forall i | 0 <= i < |up|
      ensures KeyOf(up[i]) == if i < |list| then KeyOf(list[i]) else KeyOf(dt)
      ensures AppOf(KeyOf(up[i])) == app && Reported(dts + [dt], KeyOf(up[i]))
      ensures up[i] == Merged(dts + [dt], KeyOf(up[i]))
    {
      ReportedSnoc(dts, dt, KeyOf(up[i]));
      MergedSnoc(dts, dt, KeyOf(up[i]));
    }
    forall k | AppOf(k) == app && Reported(dts + [dt], k) ensures Has(up, k) {
      ReportedSnoc(dts, dt, k);
      if Reported(dts, k) {
        var i :| 0 <= i < |list| && KeyOf(list[i]) == k;
        assert KeyOf(up[i]) == k;
      } else {
        assert up[|list|] == dt;
      }
    }
  }

  lemma OtherHolds(list: seq<ProxyInfo>, app: string, dts: seq<ProxyInfo>, dt: ProxyInfo)
    requires Holds(list, app, dts) && AppOf(KeyOf(dt)) != app
    ensures Holds(list, app, dts + [dt])
  {
    hide Merged, Reported, AppOf;
    forall i | 0 <= i < |list|
      ensures Reported(dts + [dt], KeyOf(list[i])) && list[i] == Merged(dts + [dt], KeyOf(list[i]))
    {
      ReportedSnoc(dts, dt, KeyOf(list[i]));
      MergedSnoc(dts, dt, KeyOf(list[i]));
    }
    forall k | AppOf(k) == app && Reported(dts + [dt], k) ensures Has(list, k) {
      ReportedSnoc(dts, dt, k);
    }
  }

  lemma NewHolds(app: string, dts: seq<ProxyInfo>, dt: ProxyInfo)
    requires AppOf(KeyOf(dt)) == app
    requires forall k | Reported(dts, k) :: AppOf(k) != app
    ensures Holds([dt], app, dts + [dt])
  {
    hide Merged, Reported, AppOf;
    ReportedSnoc(dts, dt, KeyOf(dt));
    MergedSnoc(dts, dt, KeyOf(dt));
    forall k | AppOf(k) == app && Reported(dts + [dt], k) ensures Has([dt], k) {
      ReportedSnoc(dts, dt, k);
      assert KeyOf([dt][0]) == k;
    }
  }

  /** After any sequence of reports: no list has two entries of one (application, address), every
      entry is under its own application, and the entries are exactly the reports merged by key --
      health, load and token from the last report, everything else from the first. */
  lemma {:induction false} RegistryRefinesMap(dts: seq<ProxyInfo>)
    ensures Refines(AddedAll(dts), dts)
  {
    hide Holds, Upserted, Reported;
    if dts == [] {
      NothingReported();
    } else {
      var front, dt := dts[..|dts| - 1], dts[|dts| - 1];
      var was, app := AddedAll(front), AppOf(KeyOf(dt));
      assert dts == front + [dt];
      RegistryRefinesMap(front);
      forall a | a in AddedAll(dts) ensures Holds(AddedAll(dts)[a], a, dts) {
        if a != app {
          OtherHolds(was[a], a, front, dt);
        } else if app in was {
          UpsertHolds(was[a], a, front, dt);
        } else {
          NewHolds(app, front, dt);
        }
      }
      forall k | Reported(dts, k) ensures AppOf(k) in AddedAll(dts) {
        ReportedSnoc(front, dt, k);
      }
    }
  }

  lemma NothingReported()
    ensures forall k :: !Reported([], k)
  {
  }

  // ---- field by field ------------------------------------------------------------------------------

  /** The index of the first report of a key, and of the last. */
  lemma {:induction false} FirstAt(dts: seq<ProxyInfo>, k: Key) returns (i: nat)
    requires Reported(dts, k)
    ensures i < |dts| && First(dts, k) == dts[i] && KeyOf(dts[i]) == k
    ensures forall j | 0 <= j < i :: KeyOf(dts[j]) != k
  {
    if KeyOf(dts[0]) == k {
      i := 0;
    } else {
      ReportedTail(dts, k);
      var n := FirstAt(dts[1..], k);
      i := n + 1;
      forall j | 0 <= j < i ensures KeyOf(dts[j]) != k {
        assert j > 0 ==> dts[j] == dts[1..][j - 1];
      }
    }
  }

  lemma {:induction false} LastAt(dts: seq<ProxyInfo>, k: Key) returns (i: nat)
    requires Reported(dts, k)
    ensures i < |dts| && Last(dts, k) == dts[i] && KeyOf(dts[i]) == k
    ensures forall j | i < j < |dts| :: KeyOf(dts[j]) != k
  {
    var n := |dts| - 1;
    if KeyOf(dts[n]) == k {
      i := n;
    } else {
      assert dts == dts[..n] + [dts[n]];
      ReportedSnoc(dts[..n], dts[n], k);
      i := LastAt(dts[..n], k);
      forall j | i < j < |dts| ensures KeyOf(dts[j]) != k {
        assert j < n ==> dts[j] == dts[..n][j];
      }
    }
  }

  predicate SameProxy(p: ProxyInfo, q: ProxyInfo) {
    p.appName == q.appName && p.proxyAddress == q.proxyAddress
  }

  /** After any reports every entry holds, field by field, what the first and the last report of its
      application and address say. */
  lemma EntryFieldByField(dts: seq<ProxyInfo>, app: string, at: nat) returns (first: nat, last: nat)
    requires app in AddedAll(dts) && at < |AddedAll(dts)[app]|
    ensures var e := AddedAll(dts)[app][at];
            && first <= last < |dts| && SameProxy(dts[first], e) && SameProxy(dts[last], e)
            && (forall j | 0 <= j < first || last < j < |dts| :: !SameProxy(dts[j], e))
            && app == (if e.appName.Some? then e.appName.value else "")
            && e.healthStatus == dts[last].healthStatus
            && e.loadAvg == dts[last].loadAvg
            && e.proxyToken == dts[last].proxyToken
            && e.appId == dts[first].appId
            && e.rewriteUrl == dts[first].rewriteUrl
            && e.echoText == dts[first].echoText
            && e.proxyPrefix == dts[first].proxyPrefix
            && e.loadCount == dts[first].loadCount
            && e.livingTime == dts[first].livingTime
  {
    RegistryRefinesMap(dts);
    hide Reported, First, Last, AddedAll;
    var e := AddedAll(dts)[app][at];
    var k := KeyOf(e);
    assert Holds(AddedAll(dts)[app], app, dts);
    first := FirstAt(dts, k);
    last := LastAt(dts, k);
    forall j | 0 <= j < first || last < j < |dts| ensures !SameProxy(dts[j], e) {
      assert KeyOf(dts[j]) != k;
    }
  }

  /** And every report has its one entry. */
  lemma ReportHasEntry(dts: seq<ProxyInfo>, i: nat) returns (app: string, at: nat)
    requires i < |dts|
    ensures app == (if dts[i].appName.Some? then dts[i].appName.value else "")
    ensures app in AddedAll(dts) && at < |AddedAll(dts)[app]| && SameProxy(AddedAll(dts)[app][at], dts[i])
    ensures forall j | 0 <= j < |AddedAll(dts)[app]| && j != at :: !SameProxy(AddedAll(dts)[app][j], dts[i])
  {
    RegistryRefinesMap(dts);
    var k := KeyOf(dts[i]);
    app := AppOf(k);
    assert Reported(dts, k);
    hide Reported, AddedAll;
    var list := AddedAll(dts)[app];
    assert Holds(list, app, dts) && Has(list, k);
    at :| 0 <= at < |list| && KeyOf(list[at]) == k;
    forall j | 0 <= j < |list| && j != at ensures !SameProxy(list[j], dts[i]) {
      assert KeyOf(list[j]) != KeyOf(list[at]);
    }
  }
}
