/**
  Divergence and recovery. While the members of a mutable keygroup stay the same, a member
  that does not hold the last value of an id is reported as having missed that id, whatever
  links and trigger hosts fail. A member that starts again then gets the last values back
  from sources that have missed nothing, except that it keeps items deleted in the meantime.
 */
module Divergence {
  import opened Fields
  import opened Numerals
  import opened LocalStore
  import opened Protocol
  import opened Sites
  import opened Convergence
  import opened Runs

  /** `last` maps an id to the last value that was written and not deleted since. */
  predicate Agrees(items: Content, last: Content, id: string) {
    if id in last then id in items && items[id] == last[id] else id !in items
  }

  ghost predicate SiteRecorded(s: Site, n: string, missed: set<Missed>, last: Content) {
    s.store.present && Tidy(s) && forall id :: Agrees(s.store.items, last, id) || Missed(n, id) in missed
  }

  ghost predicate Recorded(g: Slice, last: Content) {
    && g.record.created && g.record.mutable
    && (forall id | id in last :: Alnum(id))
    && forall n | n in g.record.ok :: SiteRecorded(SiteOf(g, n), n, g.missed, last)
  }

  /** The last written values after a request; an update counts even if its coordinator is no member
      and answers with an error, because it has relayed the value. */
  function LastAfter(g: Slice, self: string, req: Request, last: Content): Content {
    match req
    case Update(user, id, val) =>
      if Allowed(g, user, "Update") && g.record.mutable && g.record.created then Changed(last, Put(id, val)) else last
    case Delete(user, id) =>
      if Allowed(g, user, "Delete") && g.record.mutable && g.record.created && SiteOf(g, self).store.present
        && Alnum(id) && id in SiteOf(g, self).store.items then last - {id} else last
    case _ => last
  }

  lemma WrittenIsRecorded(s: Site, hosts: set<string>, n: string, missed: set<Missed>, last: Content, c: Change)
    requires SiteRecorded(s, n, missed, last) && !c.Append?
    ensures SiteRecorded(Receive(s, hosts, c), n, missed, Changed(last, c))
  {
  }

  lemma MoreIsRecorded(s: Site, n: string, missed: set<Missed>, missed': set<Missed>, last: Content)
    requires SiteRecorded(s, n, missed, last) && missed <= missed'
    ensures SiteRecorded(s, n, missed', last)
  {
  }

  lemma RelayAt2(env: Env, g: Slice, self: string, targets: set<string>, c: Change, n: string)
    ensures g.missed <= Relay(env, g, self, targets, c).missed
    ensures n in targets && !Acknowledged(env, g, self, n, c)
      ==> Missed(n, c.id) in Relay(env, g, self, targets, c).missed
  {
  }

  /** Relaying a change to the other members: each has it, or is reported. */
  lemma RelayIsRecorded(env: Env, g: Slice, self: string, c: Change, last: Content, n: string)
    requires SiteRecorded(SiteOf(g, n), n, g.missed, last) && !c.Append? && n in g.record.ok - {self}
    ensures var r := Relay(env, g, self, g.record.ok - {self}, c); SiteRecorded(SiteOf(r, n), n, r.missed,
      Changed(last, c))
  {
  }

  lemma ChangedStaysAlnum(last: Content, c: Change)
    requires forall id | id in last :: Alnum(id)
    ensures forall id | id in Changed(last, c) :: Alnum(id)
  {
  }

  lemma UpdateIsRecorded(env: Env, g: Slice, self: string, user: string, id: string, val: string, last: Content)
    requires Recorded(g, last)
    ensures Recorded(HandleUpdate(env, g, self, user, id, val).g, LastAfter(g, self, Update(user, id, val), last))
  {
    if Allowed(g, user, "Update") {
      var c := Put(id, val);
      var targets := g.record.ok - {self};
      var r := Relay(env, g, self, targets, c);
      var h := WithSite(r, self, Receive(SiteOf(r, self), env.hosts, c));
      RelayRecord(env, g, self, targets, c);
      ChangedStaysAlnum(last, c);
      RelayAt(env, g, self, targets, c, self);
      RelayAt2(env, g, self, targets, c, self);
      hide Relay, Receive, SiteRecorded, Changed;
      forall n | n in g.record.ok ensures SiteRecorded(SiteOf(h, n), n, h.missed, Changed(last, c)) {
        if n == self {
          MoreIsRecorded(SiteOf(g, self), self, g.missed, r.missed, last);
          WrittenIsRecorded(SiteOf(g, self), env.hosts, self, r.missed, last, c);
        } else {
          RelayIsRecorded(env, g, self, c, last, n);
        }
      }
    }
  }

  lemma NotifyIsRecorded(s: Site, hosts: set<string>, note: Note, n: string, missed: set<Missed>, last: Content)
    requires SiteRecorded(s, n, missed, last)
    ensures SiteRecorded(Notify(s, hosts, note), n, missed, last)
  {
  }

  lemma RemovedIsRecorded(s: Site, id: string, n: string, missed: set<Missed>, last: Content)
    requires SiteRecorded(s, n, missed, last) && Alnum(id)
    ensures SiteRecorded(s.(store := Apply(s.store, Remove(id))), n, missed, last - {id})
  {
  }

  lemma DeleteIsRecorded(env: Env, g: Slice, self: string, user: string, id: string, last: Content)
    requires Recorded(g, last)
    ensures Recorded(HandleDelete(env, g, self, user, id).g, LastAfter(g, self, Delete(user, id), last))
  {
    var s := SiteOf(g, self);
    if Allowed(g, user, "Delete") && s.store.present && Alnum(id) && id in s.store.items {
      var c := Remove(id);
      var targets := g.record.ok - {self};
      var g1 := WithSite(g, self, s.(store := Apply(s.store, c)));
      var r := Relay(env, g1, self, targets, c);
      var h := WithSite(r, self, Notify(SiteOf(r, self), env.hosts, Deleted(id)));
      assert h == HandleDelete(env, g, self, user, id).g;
      assert Changed(last, c) == last - {id};
      RelayRecord(env, g1, self, targets, c);
      RelayAt(env, g1, self, targets, c, self);
      RelayAt2(env, g1, self, targets, c, self);
      hide Relay, Receive, SiteRecorded, Changed, Notify, Apply, Alnum;
      forall n | n in g.record.ok ensures SiteRecorded(SiteOf(h, n), n, h.missed, last - {id}) {
        if n == self {
          MoreIsRecorded(s, self, g.missed, r.missed, last);
          RemovedIsRecorded(s, id, self, r.missed, last);
          NotifyIsRecorded(SiteOf(r, self), env.hosts, Deleted(id), self, r.missed, last - {id});
        } else {
          RelayIsRecorded(env, g1, self, c, last, n);
        }
      }
    }
  }

  /** Requests that neither add a member nor delete the keygroup. */
  predicate AddsNoMember(req: Request) {
    !req.DeleteKeygroup? && !req.AddReplica?
  }

  lemma RequestIsRecorded(env: Env, g: Slice, self: string, req: Request, ch: Choice, last: Content)
    requires Recorded(g, last) && AddsNoMember(req)
    ensures Recorded(Handle(env, g, self, req, ch).g, LastAfter(g, self, req, last))
  {
    if req.Update? {
      UpdateIsRecorded(env, g, self, req.user, req.id, req.val, last);
    } else if req.Delete? {
      DeleteIsRecorded(env, g, self, req.user, req.id, last);
    } else {
      OtherIsRecorded(env, g, self, req, ch, last);
    }
  }

  lemma OtherIsRecorded(env: Env, g: Slice, self: string, req: Request, ch: Choice, last: Content)
    requires Recorded(g, last)
    requires AddsNoMember(req) && !req.Update? && !req.Delete?
    ensures Recorded(Handle(env, g, self, req, ch).g, last)
  {
  }

  // ---- a member starts again ----

  /** Each missed item has a source that can be reached and has not missed it itself. */
  ghost predicate CleanSources(env: Env, g: Slice, n: string, sources: map<string, Option<string>>) {
    && ValidSources(g, n, sources)
    && forall id | id in MissedIds(g, n) ::
      sources[id].Some? && Reaches(env, n, sources[id].value) && Missed(sources[id].value, id) !in g.missed
  }

  /** The node holds nothing that was deleted while it was away. */
  ghost predicate NothingLingers(g: Slice, n: string, last: Content) {
    forall id | id in MissedIds(g, n) && id in SiteOf(g, n).store.items :: id in last
  }

  lemma FetchedIsLast(env: Env, g: Slice, n: string, sources: map<string, Option<string>>, last: Content, id: string)
    requires Recorded(g, last) && CleanSources(env, g, n, sources) && id in MissedIds(g, n)
    ensures Fetch(env, g, n, sources[id], id) == if id in last then Some(last[id]) else None
  {
  }

  lemma NotMissedAgrees(g: Slice, n: string, last: Content, id: string)
    requires Recorded(g, last) && n in g.record.ok && id !in MissedIds(g, n)
    ensures Agrees(SiteOf(g, n).store.items, last, id)
  {
  }

  /** Each missed item is fetched with its last value, or is not fetched and need not be. */
  ghost predicate Mends(env: Env, g: Slice, n: string, sources: map<string, Option<string>>, last: Content)
    requires sources.Keys == MissedIds(g, n)
  {
    forall id | id in MissedIds(g, n) :: Mended(SiteOf(g, n).store.items, Fetch(env, g, n, sources[id], id), last, id)
  }

  predicate Mended(items: Content, got: Option<string>, last: Content, id: string) {
    match got
    case Some(val) => id in last && last[id] == val
    case None => Agrees(items, last, id)
  }

  lemma RecoverAt(env: Env, g: Slice, n: string, sources: map<string, Option<string>>, id: string)
    requires SiteOf(g, n).store.present && sources.Keys == MissedIds(g, n)
    ensures var items, before := SiteOf(Recover(env, g, n, sources), n).store.items, SiteOf(g, n).store.items;
      if id in MissedIds(g, n) && Fetch(env, g, n, sources[id], id).Some?
      then id in items && items[id] == Fetch(env, g, n, sources[id], id).value
      else (id in items <==> id in before) && (id in items ==> items[id] == before[id])
  {
  }

  lemma RecoveredItem(env: Env, g: Slice, n: string, sources: map<string, Option<string>>, last: Content, id: string)
    requires Recorded(g, last) && sources.Keys == MissedIds(g, n) && n in g.record.ok
    ensures var before := SiteOf(g, n).store.items;
      Agrees(SiteOf(Recover(env, g, n, sources), n).store.items, last, id)
      <==> (id in MissedIds(g, n) ==> Mended(before, Fetch(env, g, n, sources[id], id), last, id))
  {
    assert SiteRecorded(SiteOf(g, n), n, g.missed, last);
    if id !in MissedIds(g, n) { NotMissedAgrees(g, n, last, id); }
    hide Fetch, MissedIds, SiteRecorded, Recover;
    RecoverAt(env, g, n, sources, id);
  }

  lemma AgreeingIsEqual(items: Content, last: Content)
    ensures items == last <==> forall id :: Agrees(items, last, id)
  {
    if forall id :: Agrees(items, last, id) {
      forall id ensures id in items <==> id in last { assert Agrees(items, last, id); }
      forall id | id in last ensures items[id] == last[id] { assert Agrees(items, last, id); }
    }
  }

  /** Whatever the sources, recovery brings a member back to the last written values if and only if
      every missed item is mended; its reports are gone either way. */
  lemma RecoverMends(env: Env, g: Slice, n: string, sources: map<string, Option<string>>, last: Content)
    requires Recorded(g, last) && sources.Keys == MissedIds(g, n) && n in g.record.ok
    ensures SiteOf(Recover(env, g, n, sources), n).store.items == last <==> Mends(env, g, n, sources, last)
    ensures MissedIds(Recover(env, g, n, sources), n) == {}
  {
    var items := SiteOf(Recover(env, g, n, sources), n).store.items;
    assert MissedIds(Recover(env, g, n, sources), n) == {};
    hide Recover, MissedIds, Recorded, Agrees, Mended;
    AgreeingIsEqual(items, last);
    forall id
      ensures Agrees(items, last, id)
        <==> (id in MissedIds(g, n) ==> Mended(SiteOf(g, n).store.items, Fetch(env, g, n, sources[id], id), last, id))
    {
      RecoveredItem(env, g, n, sources, last, id);
    }
  }

  /** Sources that missed nothing mend everything but items deleted in the meantime. */
  lemma CleanSourcesMend(env: Env, g: Slice, n: string, sources: map<string, Option<string>>, last: Content)
    requires Recorded(g, last) && CleanSources(env, g, n, sources)
    ensures Mends(env, g, n, sources, last) <==> NothingLingers(g, n, last)
  {
    forall id | id in MissedIds(g, n)
      ensures Fetch(env, g, n, sources[id], id) == if id in last then Some(last[id]) else None
    {
      FetchedIsLast(env, g, n, sources, last, id);
    }
    hide Fetch, MissedIds, Recorded, CleanSources;
  }

  /** With clean sources, a member is brought back if and only if nothing lingers. */
  lemma RecoverExactly(env: Env, g: Slice, n: string, sources: map<string, Option<string>>, last: Content)
    requires Recorded(g, last) && CleanSources(env, g, n, sources) && n in g.record.ok
    ensures SiteOf(Recover(env, g, n, sources), n).store.items == last <==> NothingLingers(g, n, last)
    ensures MissedIds(Recover(env, g, n, sources), n) == {}
  {
    hide Recover, MissedIds, Recorded, Mends, NothingLingers;
    RecoverMends(env, g, n, sources, last);
    CleanSourcesMend(env, g, n, sources, last);
  }

  lemma OthersStayRecorded(env: Env, g: Slice, n: string, sources: map<string, Option<string>>, last: Content,
          m: string)
    requires Recorded(g, last) && m in g.record.ok && m != n
    ensures var h := Recover(env, g, n, sources); SiteRecorded(SiteOf(h, m), m, h.missed, last)
  {
    assert SiteRecorded(SiteOf(g, m), m, g.missed, last);
    assert SiteOf(Recover(env, g, n, sources), m) == SiteOf(g, m);
  }

  /** After recovery divergence is still recorded if and only if the node is no member or is mended. */
  lemma RecoverStaysRecordedExactly(env: Env, g: Slice, n: string, sources: map<string, Option<string>>, last: Content)
    requires Recorded(g, last) && sources.Keys == MissedIds(g, n)
    ensures Recorded(Recover(env, g, n, sources), last) <==> (n in g.record.ok ==> Mends(env, g, n, sources, last))
  {
    var h := Recover(env, g, n, sources);
    assert h.record == g.record;
    forall m | m in g.record.ok && m != n ensures SiteRecorded(SiteOf(h, m), m, h.missed, last) {
      OthersStayRecorded(env, g, n, sources, last, m);
    }
    if n in g.record.ok {
      assert SiteRecorded(SiteOf(g, n), n, g.missed, last);
      RecoverMends(env, g, n, sources, last);
      TidyAfterRecovery(env, g, n, sources);
      AgreeingIsEqual(SiteOf(h, n).store.items, last);
      assert forall id :: Missed(n, id) !in h.missed;
      assert SiteRecorded(SiteOf(h, n), n, h.missed, last) <==> SiteOf(h, n).store.items == last by {
        hide Recover, Mends, Recorded, Tidy, Agrees;
      }
      hide Recover, Mends, SiteRecorded;
    }
  }

  lemma TidyAfterRecovery(env: Env, g: Slice, n: string, sources: map<string, Option<string>>)
    requires Tidy(SiteOf(g, n)) && SiteOf(g, n).store.present
    ensures Tidy(SiteOf(Recover(env, g, n, sources), n)) && SiteOf(Recover(env, g, n, sources), n).store.present
  {
  }

  // ---- runs ----

  ghost predicate Traceable(w: World, e: Event, last: Content) {
    match e
    case Client(_, req, _) => AddsNoMember(req)
    case Start(n, sources) =>
      ValidSources(w.g, n, sources) && (n in w.g.record.ok ==> Mends(w.env, w.g, n, sources, last))
    case Network(_, _) => true
  }

  function LastNext(w: World, e: Event, last: Content): Content {
    if e.Client? then LastAfter(w.g, e.self, e.req, last) else last
  }

  ghost predicate TraceableRun(w: World, events: seq<Event>, last: Content)
    decreases |events|
  {
    events == []
        || (Traceable(w, events[0], last)
            && TraceableRun(Next(w, events[0]), events[1..], LastNext(w, events[0], last)))
  }

  function LastRun(w: World, events: seq<Event>, last: Content): Content
    decreases |events|
  {
    if events == [] then last else LastRun(Next(w, events[0]), events[1..], LastNext(w, events[0], last))
  }

  /** Divergence is always recorded, over every run of requests, failures, and restarts that mend. */
  lemma {:induction false} RunIsRecorded(w: World, events: seq<Event>, last: Content)
    requires Recorded(w.g, last) && TraceableRun(w, events, last)
    ensures Recorded(Run(w, events).g, LastRun(w, events, last))
    decreases |events|
  {
    if events != [] {
      hide Recorded, Handle, Recover, Mends, LastAfter, AddsNoMember;
      match events[0] {
        case Client(self, req, ch) => RequestIsRecorded(w.env, w.g, self, req, ch, last);
        case Start(n, sources) => RecoverStaysRecordedExactly(w.env, w.g, n, sources, last);
        case Network(_, _) =>
      }
      RunIsRecorded(Next(w, events[0]), events[1..], LastNext(w, events[0], last));
    }
  }

  /** A member that nobody reports holds exactly the last values; any two of them agree. */
  lemma UnreportedHoldsLast(g: Slice, last: Content, n: string)
    requires Recorded(g, last) && n in g.record.ok && MissedIds(g, n) == {}
    ensures SiteOf(g, n).store.items == last
  {
    forall id ensures Agrees(SiteOf(g, n).store.items, last, id) { NotMissedAgrees(g, n, last, id); }
    AgreeingIsEqual(SiteOf(g, n).store.items, last);
  }

  /** A recovered member ends with exactly what every unreported member holds, if nothing lingers. */
  lemma RecoveryRestoresAgreement(env: Env, g: Slice, n: string, sources: map<string, Option<string>>, last: Content,
          m: string)
    requires Recorded(g, last) && CleanSources(env, g, n, sources) && n in g.record.ok
    requires m in g.record.ok && m != n && MissedIds(g, m) == {}
    ensures var h := Recover(env, g, n, sources);
      && MissedIds(h, n) == {}
      && (SiteOf(h, n).store.items == SiteOf(h, m).store.items <==> NothingLingers(g, n, last))
  {
    RecoverExactly(env, g, n, sources, last);
    UnreportedHoldsLast(g, last, m);
    assert SiteOf(Recover(env, g, n, sources), m) == SiteOf(g, m);
    hide Recorded, CleanSources, NothingLingers, MissedIds, Recover;
  }

  /** A keygroup whose members agree and that nobody has missed anything of is recorded. */
  lemma HealthyIsRecorded(nodes: set<string>, g: Slice, content: Content)
    requires Healthy(nodes, g, content) && g.record.created && g.record.mutable
    ensures Recorded(g, content)
  {
  }
}
