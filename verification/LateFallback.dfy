/**
 A run from an empty store after which a quiet log and the flag disagree, although no placement
 was dated before a counted action: the placement came between the two guarded updates of a
 curator call.
 */
module LateFallback {
  import opened Common
  import opened Decisions
  import opened ClusterSizes
  import opened StoreCalls
  import opened World
  import opened ReviewProtocol
  import opened FlagExactness

  /** One more event at the end of a run. */
  lemma {:induction false} RunSnoc(w: World, events: seq<Event>, e: Event)
    ensures Run(w, events + [e]) == Step(Run(w, events), e)
    decreases |events|
  {
    hide Step;
    if events == [] {
      assert [e][1..] == [];
      assert Run(w, [e]) == Run(Step(w, e), []);
    } else {
      assert (events + [e])[1..] == events[1..] + [e];
      RunSnoc(Step(w, events[0]), events[1..], e);
    }
  }

  const FIRST := StepStore(0, false, false)
  const SECOND := StepStore(1, false, false)

  /** The mention is stored at 0, and a second call, dated 5, has read it. */
  lemma StoredAndRead(a: StoreArgs, b: StoreArgs) returns (events: seq<Event>)
    requires a.id == b.id && a.outcome != b.outcome
    ensures var w := Run(EMPTY_WORLD, events); var d := NewDocument(a.mention, a.outcome, a.at);
      && w.docs == map[a.id := d] && w.audit == map[] && w.curators == map[]
      && w.stores == map[0 := StoreCall(a, Finished(Stored(d))), 1 := StoreCall(b, Updating(Some(ClusterOf(d))))]
  {
    var d := NewDocument(a.mention, a.outcome, a.at);
    var w1 := Step(EMPTY_WORLD, StartStore(0, a));
    var w2 := Step(Step(w1, FIRST), FIRST);
    assert w2 == w1.(stores := map[0 := StoreCall(a, Inserting)]);
    var w3 := Step(Step(w2, FIRST), FIRST);
    assert w3.docs == map[a.id := d] && w3.stores == map[0 := StoreCall(a, Finished(Stored(d)))];
    assert w3.audit == map[] && w3.curators == map[];
    var w5 := Step(Step(w3, StartStore(1, b)), SECOND);
    hide Step;
    assert [StartStore(0, a)][1..] == [];
    assert Run(EMPTY_WORLD, [StartStore(0, a)]) == Run(w1, []);
    events := SixMore([StartStore(0, a)], FIRST, FIRST, FIRST, FIRST, StartStore(1, b), SECOND);
  }

  /** A curator call starts, saves its action and tries the fresh claim. */
  lemma FreshTry(w: World, c: Id, id: Id, at: Time) returns (w': World)
    requires c !in w.curators && c !in w.audit && id in w.docs
    ensures w' == Step(Step(Step(w, StartCurator(c, id, at)), StepCurator(c)), StepCurator(c))
    ensures var claims := !Reviewed(w.docs[id]) && Boundary(w.docs[id]) < at;
      && w'.docs == (if claims then w.docs[id := Claimed(w.docs[id])] else w.docs) && w'.stores == w.stores
      && w'.audit == w.audit[c := AuditRow(id, at)]
      && w'.curators == w.curators[c := CuratorCall(id, at, if claims then Recorded else ClaimingFallback)]
  {
    hide Decisions.Claimed;
    var w1 := Step(Step(w, StartCurator(c, id, at)), StepCurator(c));
    assert w1.docs == w.docs && w1.stores == w.stores && w1.audit == w.audit[c := AuditRow(id, at)];
    assert w1.curators == w.curators[c := CuratorCall(id, at, ClaimingFresh)];
    w' := Step(w1, StepCurator(c));
  }

  /** Call 10, dated 3, claims the slot; call 11, dated 11, saves and misses it. */
  lemma ClaimedAndMissed(w: World, id: Id) returns (w': World)
    requires id in w.docs && !Reviewed(w.docs[id]) && Boundary(w.docs[id]) < 3.0
    requires w.audit == map[] && w.curators == map[]
    ensures w' == Step(Step(Step(Step(Step(Step(w, StartCurator(10, id, 3.0)), StepCurator(10)), StepCurator(10)),
                                      StartCurator(11, id, 11.0)), StepCurator(11)), StepCurator(11))
    ensures w'.docs == w.docs[id := Claimed(w.docs[id])] && w'.stores == w.stores
    ensures w'.audit == map[10 := AuditRow(id, 3.0), 11 := AuditRow(id, 11.0)]
    ensures w'.curators == map[10 := CuratorCall(id, 3.0, Recorded), 11 := CuratorCall(id, 11.0, ClaimingFallback)]
  {
    hide Step;
    var w1 := FreshTry(w, 10, id, 3.0);
    w' := FreshTry(w1, 11, id, 11.0);
  }

  /** The second call's placement, dated 5, then the fallback update of call 11. */
  lemma PlacedThenCounted(w: World, id: Id, b: StoreArgs) returns (w1: World, w2: World)
    requires id in w.docs && b.id == id && b.at == 5.0 && Boundary(w.docs[id]) < 5.0
    requires b.outcome.current.clusterId == ClusterOf(w.docs[id]) && 1 in w.stores
    requires w.stores[1] == StoreCall(b, Updating(Some(ClusterOf(w.docs[id]))))
    requires w.audit == map[10 := AuditRow(id, 3.0), 11 := AuditRow(id, 11.0)]
    requires w.curators == map[10 := CuratorCall(id, 3.0, Recorded), 11 := CuratorCall(id, 11.0, ClaimingFallback)]
    requires forall c | c in w.stores && c != 1 :: w.stores[c].pc.Finished?
    ensures w1 == Step(w, SECOND) && w2 == Step(w1, StepCurator(11))
    ensures Places(w, SECOND, id) && Agrees(w1, id)
    ensures StoresQuiet(w2) && CuratorsQuiet(w2) && id in w2.docs && !Reviewed(w2.docs[id]) && Vouches(w2, id, 11)
  {
    w1 := Step(w, SECOND);
    assert w1.docs == w.docs[id := MovedDocument(w.docs[id], b.mention, b.outcome, 5.0)];
    assert w1.audit == w.audit && w1.curators == w.curators;
    PlacementDecides(w, SECOND, id);
    w2 := Step(w1, StepCurator(11));
    hide Agrees;
    assert w2.docs == w1.docs[id := Counted(w1.docs[id])];
  }

  /** The placement dated 5 resets the flag; the log holds no counted action after 5, so the two
      agree. The fallback update of call 11 then counts an action dated 11 without claiming the
      slot: everything has ended, and they do not. */
  lemma LateFallbackBreaksFlag(a: StoreArgs, b: StoreArgs) returns (before: seq<Event>, place: Event, fallback: Event)
    requires a.id == b.id && a.outcome != b.outcome && a.outcome.current.clusterId == b.outcome.current.clusterId
    requires a.at == 0.0 && b.at == 5.0
    ensures Places(Run(EMPTY_WORLD, before), place, a.id) && Agrees(Run(EMPTY_WORLD, before + [place]), a.id)
    ensures var w := Run(EMPTY_WORLD, before + [place] + [fallback]);
      && StoresQuiet(w) && CuratorsQuiet(w) && a.id in w.docs
      && !Reviewed(w.docs[a.id]) && Vouches(w, a.id, 11)
  {
    var stored := StoredAndRead(a, b);
    var w := Run(EMPTY_WORLD, stored);
    hide Run, Step, Agrees, Vouches, Places;
    var w6 := ClaimedAndMissed(w, a.id);
    var w7, w8 := PlacedThenCounted(w6, a.id, b);
    hide StoresQuiet, CuratorsQuiet;
    place, fallback := SECOND, StepCurator(11);
    before := SixMore(stored, StartCurator(10, a.id, 3.0), StepCurator(10), StepCurator(10),
                      StartCurator(11, a.id, 11.0), StepCurator(11), StepCurator(11));
    RunSnoc(EMPTY_WORLD, before, place);
    RunSnoc(EMPTY_WORLD, before + [place], fallback);
  }

  lemma SixMore(first: seq<Event>, e: Event, f: Event, g: Event, h: Event, i: Event, j: Event)
      returns (events: seq<Event>)
    ensures Run(EMPTY_WORLD, events)
         == Step(Step(Step(Step(Step(Step(Run(EMPTY_WORLD, first), e), f), g), h), i), j)
  {
    hide Run, Step;
    RunSnoc(EMPTY_WORLD, first, e);
    RunSnoc(EMPTY_WORLD, first + [e], f);
    RunSnoc(EMPTY_WORLD, first + [e] + [f], g);
    RunSnoc(EMPTY_WORLD, first + [e] + [f] + [g], h);
    RunSnoc(EMPTY_WORLD, first + [e] + [f] + [g] + [h], i);
    RunSnoc(EMPTY_WORLD, first + [e] + [f] + [g] + [h] + [i], j);
    events := first + [e] + [f] + [g] + [h] + [i] + [j];
  }
}
