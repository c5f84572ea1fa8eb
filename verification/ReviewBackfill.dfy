/**
 The script that recomputes counter and flag of every decision from the audit log, and what
 it changes when run on a state the live writers left behind.
 */
module ReviewBackfill {
  import opened Common
  import opened Decisions
  import opened World
  import opened ReviewProtocol

  /** A `user_actions` document; a malformed `about_entity_mention` is `None`. */
  datatype ActionDoc = ActionDoc(mention: Option<Triad>, createdAt: Time)

  datatype Group = Group(count: nat, latest: Time)

  ghost predicate Injective(derive: Triad -> Id, actions: map<Id, ActionDoc>) {
    forall a, b | a in actions && b in actions && actions[a].mention.Some? && actions[b].mention.Some? ::
      derive(actions[a].mention.value) == derive(actions[b].mention.value) ==> actions[a].mention == actions[b].mention
  }

  /** `g` sums up exactly the actions in `rows`. */
  ghost predicate Summarizes(g: Group, actions: map<Id, ActionDoc>, rows: set<Id>) {
    && rows != {} && rows <= actions.Keys
    && g.count == |rows|
    && (forall a | a in rows :: actions[a].createdAt <= g.latest)
    && (exists a :: a in rows && actions[a].createdAt == g.latest)
  }

  ghost function MentionRows(actions: map<Id, ActionDoc>, within: set<Id>, m: Option<Triad>): set<Id> {
    set a | a in within && a in actions && actions[a].mention == m
  }

  ghost function DecisionRows(derive: Triad -> Id, actions: map<Id, ActionDoc>, id: Id): set<Id> {
    set a | a in actions && actions[a].mention.Some? && derive(actions[a].mention.value) == id
  }

  ghost predicate GroupsOf(groups: map<Option<Triad>, Group>, actions: map<Id, ActionDoc>, within: set<Id>) {
    && (forall m | m in groups :: Summarizes(groups[m], actions, MentionRows(actions, within, m)))
    && (forall a | a in within && a in actions :: actions[a].mention in groups)
  }

  /** `$sum: 1` and `$max` of one more action. */
  function Joined(groups: map<Option<Triad>, Group>, m: Option<Triad>, at: Time): Group {
    if m in groups then Group(groups[m].count + 1, if groups[m].latest < at then at else groups[m].latest)
    else Group(1, at)
  }

  /** The groups of the other mentions stay. */
  lemma OtherGroupStays(actions: map<Id, ActionDoc>, within: set<Id>, a: Id, m: Option<Triad>)
    requires a in actions && actions[a].mention != m
    ensures MentionRows(actions, within + {a}, m) == MentionRows(actions, within, m)
  {
  }

  /** The group of the action's own mention takes it in. */
  lemma OwnGroupGrows(groups: map<Option<Triad>, Group>, actions: map<Id, ActionDoc>, within: set<Id>, a: Id)
    requires a in actions && a !in within
    requires var m := actions[a].mention;
      if m in groups then Summarizes(groups[m], actions, MentionRows(actions, within, m))
      else MentionRows(actions, within, m) == {}
    ensures var m := actions[a].mention;
      Summarizes(Joined(groups, m, actions[a].createdAt), actions, MentionRows(actions, within + {a}, m))
  {
    var m := actions[a].mention;
    var before, after := MentionRows(actions, within, m), MentionRows(actions, within + {a}, m);
    assert after == before + {a};
    if m in groups {
      var top :| top in before && actions[top].createdAt == groups[m].latest;
      assert top in after && a in after;
    }
  }

  lemma GroupsGrow(groups: map<Option<Triad>, Group>, actions: map<Id, ActionDoc>, within: set<Id>, a: Id)
    requires GroupsOf(groups, actions, within) && a in actions && a !in within
    ensures var m := actions[a].mention;
      GroupsOf(groups[m := Joined(groups, m, actions[a].createdAt)], actions, within + {a})
  {
    var mention := actions[a].mention;
    var groups' := groups[mention := Joined(groups, mention, actions[a].createdAt)];
    assert mention !in groups ==> MentionRows(actions, within, mention) == {};
    hide Summarizes, MentionRows, Joined;
    OwnGroupGrows(groups, actions, within, a);
    forall m | m in groups'
      ensures Summarizes(groups'[m], actions, MentionRows(actions, within + {a}, m))
    {
      if m != mention {
        OtherGroupStays(actions, within, a, m);
      }
    }
  }

  /** The aggregation: `$group` by mention. */
  method GroupByMention(actions: map<Id, ActionDoc>) returns (groups: map<Option<Triad>, Group>)
    ensures GroupsOf(groups, actions, actions.Keys)
  {
    groups := map[];
    var todo := actions.Keys;
    ghost var done: set<Id> := {};
    assert GroupsOf(groups, actions, done);
    hide GroupsOf, Joined;
    while todo != {}
      invariant todo <= actions.Keys && done == actions.Keys - todo
      invariant GroupsOf(groups, actions, done)
      decreases todo
    {
      var a :| a in todo;
      GroupsGrow(groups, actions, done, a);
      groups := groups[actions[a].mention := Joined(groups, actions[a].mention, actions[a].createdAt)];
      todo, done := todo - {a}, done + {a};
    }
    assert done == actions.Keys;
  }

  ghost predicate CountsMatch(derive: Triad -> Id, actions: map<Id, ActionDoc>, counts: map<Id, Group>) {
    forall id: Id ::
      if id in counts then Summarizes(counts[id], actions, DecisionRows(derive, actions, id))
      else DecisionRows(derive, actions, id) == {}
  }

  /** The counts collected from the groups of `done`; malformed mentions are skipped. */
  ghost predicate CountsFrom(derive: Triad -> Id, groups: map<Option<Triad>, Group>, done: set<Option<Triad>>,
                             counts: map<Id, Group>) {
    && (forall id | id in counts ::
          exists m :: m in done && m in groups && m.Some? && derive(m.value) == id && counts[id] == groups[m])
    && (forall m | m in done && m.Some? :: derive(m.value) in counts)
  }

  /** No other mention shares the decision. */
  lemma DecisionRowsOfMention(derive: Triad -> Id, actions: map<Id, ActionDoc>, some: Id)
    requires Injective(derive, actions)
    requires some in actions && actions[some].mention.Some?
    ensures DecisionRows(derive, actions, derive(actions[some].mention.value))
         == MentionRows(actions, actions.Keys, actions[some].mention)
  {
    var m := actions[some].mention;
    forall a
      ensures a in DecisionRows(derive, actions, derive(m.value)) <==> a in MentionRows(actions, actions.Keys, m)
    {
    }
  }

  lemma CountOfGroup(derive: Triad -> Id, actions: map<Id, ActionDoc>, groups: map<Option<Triad>, Group>, m: Triad)
    requires Injective(derive, actions) && GroupsOf(groups, actions, actions.Keys) && Some(m) in groups
    ensures Summarizes(groups[Some(m)], actions, DecisionRows(derive, actions, derive(m)))
  {
    assert Summarizes(groups[Some(m)], actions, MentionRows(actions, actions.Keys, Some(m)));
    var some :| some in MentionRows(actions, actions.Keys, Some(m));
    hide Injective, GroupsOf, Summarizes;
    DecisionRowsOfMention(derive, actions, some);
  }

  lemma CountsOfGroups(derive: Triad -> Id, actions: map<Id, ActionDoc>, groups: map<Option<Triad>, Group>,
                       counts: map<Id, Group>, id: Id)
    requires Injective(derive, actions) && GroupsOf(groups, actions, actions.Keys)
    requires CountsFrom(derive, groups, groups.Keys, counts)
    ensures if id in counts then Summarizes(counts[id], actions, DecisionRows(derive, actions, id))
            else DecisionRows(derive, actions, id) == {}
  {
    if id in counts {
      var m :| m in groups && m.Some? && derive(m.value) == id && counts[id] == groups[m];
      hide Injective, GroupsOf, CountsFrom, Summarizes, DecisionRows;
      CountOfGroup(derive, actions, groups, m.value);
    } else {
      hide Injective, Summarizes;
      assert forall a | a in actions && actions[a].mention.Some? ::
        actions[a].mention in groups.Keys && derive(actions[a].mention.value) in counts;
    }
  }

  lemma CountsGrow(derive: Triad -> Id, groups: map<Option<Triad>, Group>, done: set<Option<Triad>>,
                   counts: map<Id, Group>, m: Option<Triad>)
    requires CountsFrom(derive, groups, done, counts) && m in groups
    ensures CountsFrom(derive, groups, done + {m}, if m.Some? then counts[derive(m.value) := groups[m]] else counts)
  {
  }

  lemma AllCounted(derive: Triad -> Id, actions: map<Id, ActionDoc>, groups: map<Option<Triad>, Group>,
                   counts: map<Id, Group>)
    requires Injective(derive, actions) && GroupsOf(groups, actions, actions.Keys)
    requires CountsFrom(derive, groups, groups.Keys, counts)
    ensures CountsMatch(derive, actions, counts)
  {
    hide Injective, GroupsOf, CountsFrom, Summarizes;
    forall id: Id
      ensures if id in counts then Summarizes(counts[id], actions, DecisionRows(derive, actions, id))
              else DecisionRows(derive, actions, id) == {}
    {
      CountsOfGroups(derive, actions, groups, counts, id);
    }
  }

  /** `_count_actions_per_decision`: the groups, keyed by decision; malformed mentions are
      left out. */
  method CountActionsPerDecision(derive: Triad -> Id, actions: map<Id, ActionDoc>) returns (counts: map<Id, Group>)
    requires Injective(derive, actions)
    ensures CountsMatch(derive, actions, counts)
  {
    var groups := GroupByMention(actions);
    counts := map[];
    var todo := groups.Keys;
    ghost var done: set<Option<Triad>> := {};
    assert CountsFrom(derive, groups, done, counts);
    hide Injective, GroupsOf, CountsFrom, CountsMatch;
    while todo != {}
      invariant todo <= groups.Keys && done + todo == groups.Keys
      invariant CountsFrom(derive, groups, done, counts)
      decreases todo
    {
      var m :| m in todo;
      CountsGrow(derive, groups, done, counts, m);
      if m.Some? {
        counts := counts[derive(m.value) := groups[m]];
      }
      todo, done := todo - {m}, done + {m};
    }
    AllCounted(derive, actions, groups, counts);
  }

  /** One row after its `UpdateOne`: the flag is recomputed against the row's own boundary. */
  function Recomputed(d: Decision, g: Group): Decision {
    d.(reviewCount := Some(g.count), reviewed := Some(Boundary(d) < g.latest))
  }

  /** Exactly the rows of `done` were recomputed. */
  ghost predicate RecomputedRows(docs: Docs, docs': Docs, counts: map<Id, Group>, done: set<Id>) {
    && docs'.Keys == docs.Keys
    && forall id | id in docs ::
         docs'[id] == if id in done && id in counts then Recomputed(docs[id], counts[id]) else docs[id]
  }

  ghost predicate BackfilledRows(docs: Docs, docs': Docs, counts: map<Id, Group>) {
    RecomputedRows(docs, docs', counts, counts.Keys)
  }

  /** `_build_bulk_ops`: one operation per counted decision. */
  method BuildOps(counts: map<Id, Group>) returns (ops: seq<Id>)
    ensures forall id :: id in ops <==> id in counts
    ensures forall i, j | 0 <= i < j < |ops| :: ops[i] != ops[j]
  {
    ops := [];
    var todo := counts.Keys;
    while todo != {}
      invariant todo <= counts.Keys
      invariant forall id :: id in ops <==> id in counts && id !in todo
      invariant forall i, j | 0 <= i < j < |ops| :: ops[i] != ops[j]
      decreases todo
    {
      var id :| id in todo;
      ops := ops + [id];
      todo := todo - {id};
    }
  }

  function Elements(ids: seq<Id>): set<Id> {
    set id | id in ids
  }

  lemma ElementsOfConcat(a: seq<Id>, b: seq<Id>)
    ensures Elements(a + b) == Elements(a) + Elements(b)
  {
  }

  /** One `bulk_write` of updates without upsert. */
  method BulkWrite(repository: DecisionRepository, counts: map<Id, Group>, batch: seq<Id>, ghost start: Docs,
                   ghost done: set<Id>)
    requires forall id | id in batch :: id in counts && id !in done
    requires forall i, j | 0 <= i < j < |batch| :: batch[i] != batch[j]
    requires RecomputedRows(start, repository.docs, counts, done)
    modifies repository
    ensures RecomputedRows(start, repository.docs, counts, done + Elements(batch))
  {
    for i := 0 to |batch|
      invariant RecomputedRows(start, repository.docs, counts, done + Elements(batch[..i]))
    {
      var id := batch[i];
      if id in repository.docs {
        repository.docs := repository.docs[id := Recomputed(repository.docs[id], counts[id])];
      }
      ElementsOfConcat(batch[..i], [id]);
      assert batch[..i + 1] == batch[..i] + [id];
    }
    assert batch[..|batch|] == batch;
  }

  /** The next batch is disjoint from those before it and continues them. */
  lemma NextBatch(ops: seq<Id>, done: nat, size: nat)
    requires done < |ops| && size >= 1
    requires forall i, j | 0 <= i < j < |ops| :: ops[i] != ops[j]
    ensures var batch := ops[done..if done + size < |ops| then done + size else |ops|];
      && (forall id | id in batch :: id in ops && id !in Elements(Take(ops, done)))
      && (forall i, j | 0 <= i < j < |batch| :: batch[i] != batch[j])
      && Elements(Take(ops, done + size)) == Elements(Take(ops, done)) + Elements(batch)
  {
    var batch := ops[done..if done + size < |ops| then done + size else |ops|];
    assert Take(ops, done + size) == Take(ops, done) + batch;
    ElementsOfConcat(Take(ops, done), batch);
  }

  /** `_run_backfill`: the operations are issued in batches, without upserting. */
  method RunBackfill(derive: Triad -> Id, actions: map<Id, ActionDoc>, repository: DecisionRepository,
                     dryRun: bool, batchSize: nat)
    returns (ghost counts: map<Id, Group>)
    requires Injective(derive, actions) && batchSize >= 1
    modifies repository
    ensures CountsMatch(derive, actions, counts)
    ensures dryRun ==> repository.docs == old(repository.docs)
    ensures !dryRun ==> BackfilledRows(old(repository.docs), repository.docs, counts)
  {
    var found := CountActionsPerDecision(derive, actions);
    counts := found;
    if found == map[] {
      return;
    }
    var ops := BuildOps(found);
    if dryRun {
      return;
    }
    var batchStart := 0;
    assert RecomputedRows(old(repository.docs), repository.docs, found, Elements(Take(ops, 0)));
    assert Elements(ops) == found.Keys;
    hide RecomputedRows, Elements, CountsMatch, Injective;
    while batchStart < |ops|
      invariant 0 <= batchStart
      invariant RecomputedRows(old(repository.docs), repository.docs, found, Elements(Take(ops, batchStart)))
    {
      var end := if batchStart + batchSize < |ops| then batchStart + batchSize else |ops|;
      NextBatch(ops, batchStart, batchSize);
      BulkWrite(repository, found, ops[batchStart..end], old(repository.docs), Elements(Take(ops, batchStart)));
      batchStart := batchStart + batchSize;
    }
  }

  /** The audit log of a world, as documents. */
  ghost predicate LogOf(derive: Triad -> Id, actions: map<Id, ActionDoc>, audit: map<Id, AuditRow>) {
    forall a :: (a in audit <==> a in actions && actions[a].mention.Some?)
                && (a in audit ==> audit[a] == AuditRow(derive(actions[a].mention.value), actions[a].createdAt))
  }

  /** Run while no curator call is in flight, the backfill writes every counter equal to the
      stored one, clears no flag, and sets one exactly where the log holds an action dated
      after the boundary. */
  lemma BackfillAgreesWithLiveWriters(w: World, derive: Triad -> Id, actions: map<Id, ActionDoc>,
                                      counts: map<Id, Group>, docs': Docs)
    requires ReviewInv(w) && CuratorsQuiet(w)
    requires LogOf(derive, actions, w.audit) && CountsMatch(derive, actions, counts)
    requires BackfilledRows(w.docs, docs', counts)
    ensures forall id | id in w.docs ::
      && ReviewCount(docs'[id]) == ReviewCount(w.docs[id])
      && (Reviewed(w.docs[id]) ==> Reviewed(docs'[id]))
      && (Reviewed(docs'[id]) <==>
            exists a :: a in w.audit && w.audit[a].about == id && Boundary(w.docs[id]) < w.audit[a].createdAt)
      && docs'[id].outcome == w.docs[id].outcome && Boundary(docs'[id]) == Boundary(w.docs[id])
  {
    forall id | id in w.docs
      ensures ReviewCount(docs'[id]) == ReviewCount(w.docs[id])
      ensures Reviewed(w.docs[id]) ==> Reviewed(docs'[id])
      ensures Reviewed(docs'[id]) <==>
              exists a :: a in w.audit && w.audit[a].about == id && Boundary(w.docs[id]) < w.audit[a].createdAt
    {
      assert Conserved(w.audit, w.docs, w.curators, id) && FlagVouched(w, id);
      assert Flying(w.curators, id) == {};
      assert RowsAbout(w.audit, id) == DecisionRows(derive, actions, id);
      if Reviewed(w.docs[id]) {
        var a :| Vouches(w, id, a);
        assert a in RowsAbout(w.audit, id);
      }
      if id in counts {
        assert Summarizes(counts[id], actions, DecisionRows(derive, actions, id));
      } else {
        assert forall a | a in w.audit && w.audit[a].about == id :: a in RowsAbout(w.audit, id);
      }
    }
  }
}
