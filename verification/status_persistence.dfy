/** Writing the status back under optimistic concurrency. */
module StatusPersistence {
  import opened Nodes
  import opened AddonInstaller

  // addons is None for a nil map; other stands for the rest of the status.
  datatype Status = Status(addons: Option<map<string, AddonStatus>>, other: string)

  datatype Write = Write(mine: bool, onVersion: nat, status: Status)

  // The stored object, and every write that landed.
  datatype Api = Api(version: nat, status: Status, writes: seq<Write>)

  // The object in the caller's hands.
  datatype Local = Local(version: nat, status: Status)

  // What happens around one attempt: writes of others before the update, an error
  // other than a conflict (then nothing landed), writes of others before the
  // re-read, and a failing re-read.
  datatype Round = Round(before: seq<Status>, broken: bool, meanwhile: seq<Status>, getFails: bool)

  datatype Outcome = Saved | Rejected | GetFailed | Exhausted

  // CarryAddons: a re-read fills in missing addons. KeepOwn: it only refreshes the version.
  datatype Mode = CarryAddons | KeepOwn

  const STATUS_UPDATE_RETRIES := 3

  function Landed(api: Api, mine: bool, status: Status): Api {
    Api(api.version + 1, status, api.writes + [Write(mine, api.version, status)])
  }

  function Foreign(api: Api, statuses: seq<Status>): Api {
    if statuses == [] then api else Landed(Foreign(api, statuses[..|statuses| - 1]), false, statuses[|statuses| - 1])
  }

  function Refreshed(mode: Mode, c: Local, api: Api): Local {
    Local(api.version,
          if mode == CarryAddons && c.status.addons == None && api.status.addons != None
          then c.status.(addons := api.status.addons)
          else c.status)
  }

  datatype Result = Result(api: Api, local: Local, outcome: Outcome)

  function Persist(mode: Mode, api: Api, c: Local, rounds: seq<Round>): Result
    decreases |rounds|
  {
    if rounds == [] then Result(api, c, Exhausted)
    else
      var r := rounds[0];
      var now := Foreign(api, r.before);
      if r.broken then Result(now, c, Rejected)
      else if c.version == now.version then
        Result(Landed(now, true, c.status), c.(version := now.version + 1), Saved)
      else
        var later := Foreign(now, r.meanwhile);
        if r.getFails then Result(later, c, GetFailed)
        else Persist(mode, later, Refreshed(mode, c, later), rounds[1..])
  }

  // ---- All or nothing ------------------------------------------------------------------

  function Mine(writes: seq<Write>): seq<Write> {
    if writes == [] then []
    else
      var k := |writes| - 1;
      Mine(writes[..k]) + if writes[k].mine then [writes[k]] else []
  }

  /** The re-reads that a run of the protocol makes, whatever it carries along. */
  function Rereads(api: Api, version: nat, rounds: seq<Round>): seq<Local>
    decreases |rounds|
  {
    if rounds == [] || rounds[0].broken then []
    else
      var now := Foreign(api, rounds[0].before);
      var later := Foreign(now, rounds[0].meanwhile);
      if version == now.version || rounds[0].getFails then []
      else [Local(later.version, later.status)] + Rereads(later, later.version, rounds[1..])
  }

  function LastVersion(version: nat, reread: seq<Local>): nat {
    if reread == [] then version else reread[|reread| - 1].version
  }

  /** The first addons that are not nil: the caller's own, else those of the earliest re-read. */
  function FirstAddons(own: Option<map<string, AddonStatus>>, reread: seq<Local>): Option<map<string, AddonStatus>>
    decreases |reread|
  {
    if own.Some? || reread == [] then own else FirstAddons(reread[0].status.addons, reread[1..])
  }

  function Expected(mode: Mode, status: Status, reread: seq<Local>): Status {
    if mode == KeepOwn then status else status.(addons := FirstAddons(status.addons, reread))
  }

  lemma {:induction false} ForeignIsForeign(api: Api, statuses: seq<Status>)
    ensures Mine(Foreign(api, statuses).writes) == Mine(api.writes)
    ensures Foreign(api, statuses).version == api.version + |statuses|
  {
    if statuses != [] {
      var k := |statuses| - 1;
      ForeignIsForeign(api, statuses[..k]);
      MineSnoc(Foreign(api, statuses[..k]).writes, Write(false, Foreign(api, statuses[..k]).version, statuses[k]));
    }
  }

  lemma MineSnoc(writes: seq<Write>, w: Write)
    ensures Mine(writes + [w]) == Mine(writes) + if w.mine then [w] else []
  {
    assert (writes + [w])[..|writes|] == writes;
  }

  /** Success means exactly one write landed: the caller's status, with the addons the
      mode prescribes, on the version last read. Anything else means none did. */
  lemma {:induction false} AllOrNothing(mode: Mode, api: Api, c: Local, rounds: seq<Round>)
    ensures var r, reread := Persist(mode, api, c, rounds), Rereads(api, c.version, rounds);
            if r.outcome == Saved then
              var w := Write(true, LastVersion(c.version, reread), Expected(mode, c.status, reread));
              && Mine(r.api.writes) == Mine(api.writes) + [w]
              && r.api.status == w.status && r.api.version == w.onVersion + 1 == r.local.version
            else Mine(r.api.writes) == Mine(api.writes)
    decreases |rounds|
  {
    if rounds != [] {
      var r := rounds[0];
      var now := Foreign(api, r.before);
      var later := Foreign(now, r.meanwhile);
      ForeignIsForeign(api, r.before);
      ForeignIsForeign(now, r.meanwhile);
      MineSnoc(now.writes, Write(true, now.version, c.status));
      hide Mine, Foreign;
      if !r.broken && c.version != now.version && !r.getFails {
        AllOrNothing(mode, later, Refreshed(mode, c, later), rounds[1..]);
        OneReread(mode, api, c, rounds);
        hide Rereads, Expected, LastVersion;
      }
    }
  }

  // After a conflict and a re-read, what is expected follows from the rest of the run.
  lemma OneReread(mode: Mode, api: Api, c: Local, rounds: seq<Round>)
    requires rounds != [] && !rounds[0].broken && !rounds[0].getFails
    requires c.version != Foreign(api, rounds[0].before).version
    ensures var later := Foreign(Foreign(api, rounds[0].before), rounds[0].meanwhile);
            var d, reread := Refreshed(mode, c, later), Rereads(api, c.version, rounds);
            var rest := Rereads(later, later.version, rounds[1..]);
            && LastVersion(c.version, reread) == LastVersion(d.version, rest)
            && Expected(mode, c.status, reread) == Expected(mode, d.status, rest)
  {
    hide Foreign;
    var later := Foreign(Foreign(api, rounds[0].before), rounds[0].meanwhile);
    var reread, rest := Rereads(api, c.version, rounds), Rereads(later, later.version, rounds[1..]);
    assert reread == [Local(later.version, later.status)] + rest && reread[1..] == rest;
  }

  // Somebody else wrote since the version at hand was read.
  predicate Conflicts(behind: bool, r: Round) {
    behind || r.before != []
  }

  /** How one attempt ends the protocol; None means that it is tried again. */
  function Verdict(behind: bool, r: Round): Option<Outcome> {
    if r.broken then Some(Rejected)
    else if !Conflicts(behind, r) then Some(Saved)
    else if r.getFails then Some(GetFailed)
    else None
  }

  /** The first attempt that is not a conflict with a working re-read decides: it saves
      exactly when nobody else has written since the last read. */
  lemma {:induction false} FirstVerdictDecides(mode: Mode, api: Api, c: Local, rounds: seq<Round>, k: nat)
    requires c.version <= api.version && k <= |rounds|
    requires forall j | 0 <= j < k :: Verdict(j == 0 && c.version < api.version, rounds[j]) == None
    requires k < |rounds| ==> Verdict(k == 0 && c.version < api.version, rounds[k]).Some?
    ensures Persist(mode, api, c, rounds).outcome ==
            if k == |rounds| then Exhausted else Verdict(k == 0 && c.version < api.version, rounds[k]).value
    decreases |rounds|
  {
    if rounds != [] {
      var r := rounds[0];
      var later := Foreign(Foreign(api, r.before), r.meanwhile);
      ForeignIsForeign(api, r.before);
      hide Foreign;
      if k > 0 {
        FirstVerdictDecides(mode, later, Refreshed(mode, c, later), rounds[1..], k - 1);
      }
    }
  }

  /** Either writer makes at most one re-read per attempt, and one fewer when it saves:
      with as many attempts as the operator makes, two. */
  lemma {:induction false} FewRereads(mode: Mode, api: Api, c: Local, rounds: seq<Round>)
    ensures |Rereads(api, c.version, rounds)| <= |rounds|
    ensures Persist(mode, api, c, rounds).outcome == Saved ==> |Rereads(api, c.version, rounds)| < |rounds|
    decreases |rounds|
  {
    if rounds != [] {
      var later := Foreign(Foreign(api, rounds[0].before), rounds[0].meanwhile);
      FewRereads(mode, later, Refreshed(mode, c, later), rounds[1..]);
    }
  }

  /** The writer that only refreshes the version leaves the caller's status as it was. */
  lemma {:induction false} OwnStatusIsKept(api: Api, c: Local, rounds: seq<Round>)
    ensures Persist(KeepOwn, api, c, rounds).local.status == c.status
    decreases |rounds|
  {
    if rounds != [] {
      var later := Foreign(Foreign(api, rounds[0].before), rounds[0].meanwhile);
      hide Foreign;
      OwnStatusIsKept(later, Refreshed(KeepOwn, c, later), rounds[1..]);
    }
  }

  /** The difference between the two writers: with nil addons of its own and one
      conflict, one saves the addons it re-read and the other saves none. */
  lemma OnlyOneCarriesAddons(api: Api, c: Local, rounds: seq<Round>)
    requires c.status.addons == None && api.status.addons.Some? && c.version != api.version
    requires |rounds| == 3 && rounds[0] == rounds[1] == Round([], false, [], false)
    ensures var carry, keep := Persist(CarryAddons, api, c, rounds), Persist(KeepOwn, api, c, rounds);
            && carry.outcome == keep.outcome == Saved
            && carry.api.status == c.status.(addons := api.status.addons)
            && keep.api.status == c.status
  {
    assert Foreign(api, []) == api;
    assert rounds[1..][0] == Round([], false, [], false);
  }

  // ---- The API server and the two writers ---------------------------------------------------

  class ApiServer {
    var version: nat
    var status: Status
    ghost var writes: seq<Write>

    ghost function View(): Api
      reads this
    {
      Api(version, status, writes)
    }

    constructor (version: nat, status: Status)
      ensures View() == Api(version, status, [])
    {
      this.version, this.status, writes := version, status, [];
    }

    method Store(mine: bool, s: Status)
      modifies this
      ensures View() == Landed(old(View()), mine, s)
    {
      writes := writes + [Write(mine, version, s)];
      version, status := version + 1, s;
    }

    method OthersWrite(statuses: seq<Status>)
      modifies this
      ensures View() == Foreign(old(View()), statuses)
    {
      for i := 0 to |statuses|
        invariant View() == Foreign(old(View()), statuses[..i])
      {
        assert statuses[..i + 1][..i] == statuses[..i];
        Store(false, statuses[i]);
      }
      assert statuses[..|statuses|] == statuses;
    }

    /** Compare-and-swap on the version. */
    method Update(c: Local) returns (conflict: bool)
      modifies this
      ensures conflict == (c.version != old(version))
      ensures View() == if conflict then old(View()) else Landed(old(View()), true, c.status)
    {
      if c.version != version {
        return true;
      }
      Store(true, c.status);
      return false;
    }
  }

  method UpdateStatusWithRetry(api: ApiServer, cluster: Local, rounds: seq<Round>) returns (outcome: Outcome)
    requires |rounds| == 3
    modifies api
    ensures var r := Persist(CarryAddons, old(api.View()), cluster, rounds);
            api.View() == r.api && outcome == r.outcome
  {
    hide Foreign;
    var c := cluster;
    assert rounds[0..] == rounds;
    for i := 0 to STATUS_UPDATE_RETRIES
      invariant Persist(CarryAddons, old(api.View()), cluster, rounds) ==
                Persist(CarryAddons, api.View(), c, rounds[i..])
    {
      assert rounds[i..][1..] == rounds[i + 1..];
      api.OthersWrite(rounds[i].before);
      if rounds[i].broken {
        return Rejected;
      }
      var conflict := api.Update(c);
      if !conflict {
        return Saved;
      }
      api.OthersWrite(rounds[i].meanwhile);
      if rounds[i].getFails {
        return GetFailed;
      }
      var latest := Local(api.version, c.status);
      if latest.status.addons == None && api.status.addons != None {
        latest := latest.(status := latest.status.(addons := api.status.addons));
      }
      c := latest;
    }
    return Exhausted;
  }

  /** Re-reads as well, but what it copies over from the stored addons goes into a value
      that is dropped: only the version reaches the caller's object. */
  method PersistClusterStatus(api: ApiServer, cluster: Local, rounds: seq<Round>)
    returns (outcome: Outcome, after: Local)
    requires |rounds| == 3
    modifies api
    ensures var r := Persist(KeepOwn, old(api.View()), cluster, rounds);
            api.View() == r.api && outcome == r.outcome && after == r.local
  {
    hide Foreign;
    after := cluster;
    assert rounds[0..] == rounds;
    for i := 0 to STATUS_UPDATE_RETRIES
      invariant Persist(KeepOwn, old(api.View()), cluster, rounds) == Persist(KeepOwn, api.View(), after, rounds[i..])
    {
      assert rounds[i..][1..] == rounds[i + 1..];
      api.OthersWrite(rounds[i].before);
      if rounds[i].broken {
        return Rejected, after;
      }
      var conflict := api.Update(after);
      if !conflict {
        after := after.(version := api.version);
        return Saved, after;
      }
      api.OthersWrite(rounds[i].meanwhile);
      if rounds[i].getFails {
        return GetFailed, after;
      }
      var latest := Local(api.version, after.status);
      if latest.status.addons == None && api.status.addons != None {
        latest := latest.(status := latest.status.(addons := api.status.addons));
      }
      after := after.(version := latest.version);
    }
    return Exhausted, after;
  }
}
