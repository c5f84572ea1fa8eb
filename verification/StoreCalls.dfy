/**
 One `store_decision` call, cut at every database access, so that calls can be interleaved.
 */
module StoreCalls {
  import opened Common
  import opened Decisions

  /** The arguments of a call; `outcome` already carries the truncated candidate list. */
  datatype StoreArgs = StoreArgs(id: Id, mention: Triad, outcome: Outcome, at: Time)

  /** What a write keeps of a message: the placement, and as many of the leading candidates as
      fit. */
  function Truncated(current: ClusterReference, candidates: seq<ClusterReference>, maxCandidates: nat): (o: Outcome)
    ensures o.current == current && o.candidates <= candidates
    ensures |o.candidates| == if |candidates| < maxCandidates then |candidates| else maxCandidates
  {
    Outcome(current, Take(candidates, maxCandidates))
  }

  /** The next database access of a call. */
  datatype StorePc =
    | Reading                                    // the service reads the row
    | PreReading                                 // nothing was there: the repository reads again
    | Inserting                                  // still nothing: insert path
    | Updating(seen: Option<Id>)                 // update path; cluster of the row the service read
    | FetchingStale                              // the write matched nothing
    | Shifting(source: Option<Id>, owesDecrement: bool, owesIncrement: bool, written: Decision)
    | Sweeping(emptied: Id, written: Decision)
    | Finished(result: StoreResult)

  /** After an accepted write: shift the index, unless there is none or the cluster stays. */
  function AfterWrite(indexed: bool, source: Option<Id>, written: Decision, target: Id): StorePc {
    if !indexed || source == Some(target) then Finished(Stored(written))
    else Shifting(source, source.Some?, true, written)
  }

  /** A step on the decisions collection. `duplicateKey` is the database's choice, when an
      upsert meets a row inserted meanwhile, between raising and returning that row. */
  function StoreStep(indexed: bool, docs: Docs, args: StoreArgs, pc: StorePc, duplicateKey: bool): (Docs, StorePc) {
    var id := args.id;
    match pc
    case Reading =>
      if id !in docs then (docs, PreReading)
      else if docs[id].outcome == args.outcome then (docs, Finished(Unchanged(docs[id])))
      else (docs, Updating(Some(ClusterOf(docs[id]))))
    case PreReading =>
      (docs, if id in docs then Updating(None) else Inserting)
    case Inserting =>
      if id !in docs then
        var d := NewDocument(args.mention, args.outcome, args.at);
        (docs[id := d], AfterWrite(indexed, None, d, args.outcome.current.clusterId))
      else if duplicateKey then (docs, FetchingStale)
      else (docs, AfterWrite(indexed, None, docs[id], args.outcome.current.clusterId))
    case Updating(seen) =>
      if id in docs && OlderThan(docs[id], args.at) then
        var d := MovedDocument(docs[id], args.mention, args.outcome, args.at);
        (docs[id := d], AfterWrite(indexed, seen, d, args.outcome.current.clusterId))
      else (docs, FetchingStale)
    case FetchingStale =>
      (docs, Finished(if id in docs then Stale else OperationFailed))
    case _ => (docs, pc)
  }

  /** True when this step writes a placement: the genuine insert, or an accepted update. */
  predicate WritesPlacement(docs: Docs, args: StoreArgs, pc: StorePc) {
    || (pc.Inserting? && args.id !in docs)
    || (pc.Updating? && args.id in docs && OlderThan(docs[args.id], args.at))
  }

  /** What a call may assume about its own row: documents are never deleted, so once a row
      was seen it is there. */
  ghost predicate StorePcOk(docs: Docs, args: StoreArgs, pc: StorePc) {
    match pc
    case Reading => true
    case PreReading => true
    case Inserting => true
    case Finished(r) => args.id in docs && !r.OperationFailed?
    case _ => args.id in docs
  }

  /** A row's history cannot go back: it stays, keeps `created_at`, and its placement either
      is the very same or is dated strictly later. */
  ghost predicate RowAdvances(d: Decision, d': Decision) {
    && d'.createdAt == d.createdAt
    && ((d'.outcome == d.outcome && d'.updatedAt == d.updatedAt) || Boundary(d) < Boundary(d'))
  }

  ghost predicate DocsAdvance(docs: Docs, docs': Docs) {
    forall id | id in docs :: id in docs' && RowAdvances(docs[id], docs'[id])
  }

  ghost predicate UpdatedAfterCreated(docs: Docs) {
    forall id | id in docs && docs[id].updatedAt.Some? :: docs[id].createdAt < docs[id].updatedAt.value
  }

  lemma DocsAdvanceTransitive(a: Docs, b: Docs, c: Docs)
    requires DocsAdvance(a, b) && DocsAdvance(b, c)
    ensures DocsAdvance(a, c)
  {
    forall id | id in a
      ensures id in c && RowAdvances(a[id], c[id])
    {
      assert RowAdvances(a[id], b[id]) && RowAdvances(b[id], c[id]);
    }
  }

  /** Every step of a store call moves the collection forward: a write that is accepted
      raises the boundary strictly, one that is rejected as stale changes nothing. */
  lemma StoreStepAdvances(indexed: bool, docs: Docs, args: StoreArgs, pc: StorePc, duplicateKey: bool)
    requires StorePcOk(docs, args, pc)
    requires UpdatedAfterCreated(docs)
    ensures var (docs', pc') := StoreStep(indexed, docs, args, pc, duplicateKey);
      && DocsAdvance(docs, docs')
      && UpdatedAfterCreated(docs')
      && StorePcOk(docs', args, pc')
      && (docs' != docs <==> WritesPlacement(docs, args, pc))
      && (WritesPlacement(docs, args, pc) ==>
            && Boundary(docs'[args.id]) == args.at
            && docs'[args.id].outcome == args.outcome
            && !Reviewed(docs'[args.id])
            && (args.id in docs ==> Boundary(docs[args.id]) < args.at))
      && (pc'.FetchingStale? || pc' == Finished(Stale) ==> docs' == docs)
  {
  }
}
