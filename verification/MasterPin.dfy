/**
 The pinned master identity: a write-once cell, its sequential operations, and what concurrent resolvers
 can make of it while anyone edits the database between their steps.
 */
module MasterPin {
  import opened Text

  type Id = nat

  /** A freshly authenticated key record, as far as the pin touches it. */
  class Principal {
    const id: Id
    var isMaster: bool

    constructor (id: Id, isMaster: bool)
      ensures this.id == id && this.isMaster == isMaster
    {
      this.id, this.isMaster := id, isMaster;
    }
  }

  datatype BootError = MissingConstraint | NoMaster | Duplicates(ids: set<Id>)

  datatype Result<+T, +E> = Ok(value: T) | Err(error: E)

  /** `resolve_inner`: the sole row that claims mastery, or why there is none. */
  function SoleMaster(masters: set<Id>): (r: Result<Id, BootError>)
    ensures r.Ok? <==> exists id :: masters == {id}
    ensures r.Ok? ==> masters == {r.value}
    ensures r.Err? ==> r.error == if masters == {} then NoMaster else Duplicates(masters)
  {
    if masters == {} then Err(NoMaster)
    else if id :| id in masters && masters == {id} then Ok(id)
    else Err(Duplicates(masters))
  }

  class MasterPin {
    var cell: Option<Id>

    constructor ()
      ensures cell == None
    {
      cell := None;
    }

    /** `OnceCell::set`: a value once stored is never replaced. */
    method Set(id: Id)
      modifies this
      ensures cell == if old(cell).Some? then old(cell) else Some(id)
    {
      if cell.None? {
        cell := Some(id);
      }
    }

    /** Boot succeeds exactly when the uniqueness index exists and one row claims mastery, and returns
        whatever the cell then holds. */
    method PinAtBoot(hasIndex: bool, masters: set<Id>) returns (r: Result<Id, BootError>)
      modifies this
      ensures r.Ok? <==> hasIndex && exists id :: masters == {id}
      ensures r.Ok? ==> cell == Some(r.value) && (old(cell).Some? ==> cell == old(cell))
      ensures r.Ok? && old(cell).None? ==> masters == {r.value}
      ensures r.Err? ==> cell == old(cell)
      ensures r.Err? ==>
                r.error == if !hasIndex then MissingConstraint else if masters == {} then NoMaster else Duplicates(masters)
    {
      if !hasIndex {
        return Err(MissingConstraint);
      }
      var found := SoleMaster(masters);
      if found.Err? {
        return Err(found.error);
      }
      Set(found.value);
      r := Ok(cell.value);
    }

    /** The pinned id, resolved on first use; an ambiguous database leaves the cell empty. */
    method Resolve(masters: set<Id>) returns (r: Option<Id>)
      modifies this
      ensures r == cell
      ensures old(cell).Some? ==> cell == old(cell)
      ensures old(cell).None? ==> (cell.Some? <==> exists id :: masters == {id})
      ensures old(cell).None? && cell.Some? ==> masters == {cell.value}
    {
      if cell.Some? {
        return cell;
      }
      var found := SoleMaster(masters);
      if found.Ok? {
        Set(found.value);
      }
      r := cell;
    }

    /** A key keeps its mastery only if it is the pinned identity; nothing ever gains it. */
    method Authenticate(key: Principal, masters: set<Id>)
      modifies this, key
      ensures key.isMaster <==> old(key.isMaster) && cell == Some(key.id)
      ensures old(cell).Some? ==> cell == old(cell)
    {
      if !key.isMaster {
        return;
      }
      var pinned := Resolve(masters);
      if pinned != Some(key.id) {
        key.isMaster := false;
      }
    }
  }
}

/**
 Resolution split into its atomic steps, any number of resolvers at a time, and arbitrary edits of the
 master rows in between.
 */
module MasterPinConcurrency {
  import opened Text
  import opened MasterPin

  /** A resolution, possibly on behalf of a key that claims mastery. */
  datatype Phase =
    | Idle
    | Started(claimant: Option<Id>)
    | Missed(claimant: Option<Id>)            // the cell was empty
    | Found(claimant: Option<Id>, id: Id)     // the database named one master
    | Stored(claimant: Option<Id>)            // the cell was written, by this resolver or before it

  datatype State = State(
    cell: Option<Id>,
    masters: set<Id>,
    phases: map<nat, Phase>,
    writes: nat,
    observed: set<Id>,                        // ids some read found to be the only master row
    returned: set<Id>,                        // ids any resolver has returned
    authenticated: set<Id>)                   // keys that left `authenticate` as master

  datatype Event =
    | Edit(masters: set<Id>)
    | Start(resolver: nat, claimant: Option<Id>)
    | Boot(resolver: nat)                     // `pin_at_boot` does not look at the cell first
    | Look(resolver: nat)
    | Read(resolver: nat)
    | Store(resolver: nat)
    | Get(resolver: nat)

  function PhaseOf(s: State, resolver: nat): Phase {
    if resolver in s.phases then s.phases[resolver] else Idle
  }

  function Move(s: State, resolver: nat, phase: Phase): State {
    s.(phases := s.phases[resolver := phase])
  }

  function Finish(s: State, resolver: nat, claimant: Option<Id>, result: Option<Id>): State {
    Move(s.(returned := if result.Some? then s.returned + {result.value} else s.returned,
            authenticated := if claimant.Some? && result == claimant then s.authenticated + {claimant.value}
                             else s.authenticated),
         resolver, Idle)
  }

  function Step(s: State, e: Event): State {
    match e
    case Edit(masters) => s.(masters := masters)
    case Start(r, claimant) => if PhaseOf(s, r).Idle? then Move(s, r, Started(claimant)) else s
    case Boot(r) => if PhaseOf(s, r).Idle? then Move(s, r, Missed(None)) else s
    case Look(r) =>
      (match PhaseOf(s, r)
       case Started(claimant) =>
         if s.cell.Some? then Finish(s, r, claimant, s.cell) else Move(s, r, Missed(claimant))
       case _ => s)
    case Read(r) =>
      (match PhaseOf(s, r)
       case Missed(claimant) =>
         var found := SoleMaster(s.masters);
         if found.Ok? then Move(s.(observed := s.observed + {found.value}), r, Found(claimant, found.value))
         else Finish(s, r, claimant, None)
       case _ => s)
    case Store(r) =>
      (match PhaseOf(s, r)
       case Found(claimant, id) =>
         Move(if s.cell.None? then s.(cell := Some(id), writes := s.writes + 1) else s, r, Stored(claimant))
       case _ => s)
    case Get(r) =>
      (match PhaseOf(s, r)
       case Stored(claimant) => Finish(s, r, claimant, s.cell)
       case _ => s)
  }

  function Run(s: State, events: seq<Event>): State {
    if events == [] then s else Step(Run(s, events[..|events| - 1]), events[|events| - 1])
  }

  function Initial(masters: set<Id>): State {
    State(None, masters, map[], 0, {}, {}, {})
  }

  ghost predicate Inv(s: State) {
    && s.writes == (if s.cell.Some? then 1 else 0)
    && (forall id :: id in s.returned ==> s.cell == Some(id))
    && (forall id :: id in s.authenticated ==> s.cell == Some(id))
    && (forall r :: r in s.phases && s.phases[r].Stored? ==> s.cell.Some?)
    && (forall r :: r in s.phases && s.phases[r].Found? ==> s.phases[r].id in s.observed)
    && (s.cell.Some? ==> s.cell.value in s.observed)
  }

  lemma StepKeepsInv(s: State, e: Event)
    requires Inv(s)
    ensures Inv(Step(s, e)) && (s.cell.Some? ==> Step(s, e).cell == s.cell)
  {
  }

  lemma {:induction false} RunKeepsInv(masters: set<Id>, events: seq<Event>)
    ensures Inv(Run(Initial(masters), events))
  {
    if events != [] {
      RunKeepsInv(masters, events[..|events| - 1]);
      StepKeepsInv(Run(Initial(masters), events[..|events| - 1]), events[|events| - 1]);
    }
  }

  /** Whatever the interleaving and whatever is written to the database, the cell is written at most once,
      all resolvers that return an id return the same one, which some read found to be the only master row,
      and at most one key ever authenticates as master in the lifetime of the process. */
  lemma OneMaster(masters: set<Id>, events: seq<Event>)
    ensures
      var s := Run(Initial(masters), events);
      && s.writes <= 1
      && (forall x, y :: x in s.returned && y in s.returned ==> x == y)
      && s.returned <= s.observed && s.authenticated <= s.observed
      && (forall x, y :: x in s.authenticated && y in s.authenticated ==> x == y)
  {
    RunKeepsInv(masters, events);
  }

  /** A pin once written survives every continuation of the run. */
  lemma {:induction false} PinIsPermanent(masters: set<Id>, before: seq<Event>, after: seq<Event>)
    requires Run(Initial(masters), before).cell.Some?
    ensures Run(Initial(masters), before + after).cell == Run(Initial(masters), before).cell
    decreases |after|
  {
    if after == [] {
      assert before + after == before;
    } else {
      var front, e := after[..|after| - 1], after[|after| - 1];
      PinIsPermanent(masters, before, front);
      assert (before + after)[..|before + after| - 1] == before + front;
      RunKeepsInv(masters, before + front);
      StepKeepsInv(Run(Initial(masters), before + front), e);
    }
  }

  /** An uninterrupted resolution, from any state: it keeps the pin there is, or else pins the only master row, if there is
      one, and returns the pin; and a key it is for leaves as master exactly when it is the pinned one. */
  lemma WholeResolution(s: State, resolver: nat, claimant: Option<Id>)
    requires PhaseOf(s, resolver).Idle?
    ensures
      var s1 := Step(Step(s, Start(resolver, claimant)), Look(resolver));
      var s' := Step(Step(Step(s1, Read(resolver)), Store(resolver)), Get(resolver));
      && (s.cell.Some? ==> s'.cell == s.cell)
      && (s.cell.None? ==> forall id: Id :: s'.cell == Some(id) <==> s.masters == {id})
      && (forall id :: id in s'.authenticated <==> id in s.authenticated || (claimant == Some(id) && s'.cell == Some(id)))
      && (forall id :: id in s'.returned <==> id in s.returned || s'.cell == Some(id))
      && PhaseOf(s', resolver).Idle? && s'.masters == s.masters
  {
    hide SoleMaster;
    var s2 := Step(Step(s, Start(resolver, claimant)), Look(resolver));
    if s.cell.Some? {
      assert Step(Step(Step(s2, Read(resolver)), Store(resolver)), Get(resolver)) == s2;
    } else {
      assert PhaseOf(s2, resolver) == Missed(claimant);
      ReadToGet(s2, resolver, claimant);
    }
  }

  /** An uninterrupted resolution at boot, which does not look at the cell: it needs a sole master row even where there is
      a pin, and then returns the pin. */
  lemma WholeBoot(s: State, resolver: nat)
    requires PhaseOf(s, resolver).Idle?
    ensures
      var s' := Step(Step(Step(Step(s, Boot(resolver)), Read(resolver)), Store(resolver)), Get(resolver));
      && (s.cell.Some? ==> s'.cell == s.cell)
      && (s.cell.None? ==> forall id: Id :: s'.cell == Some(id) <==> s.masters == {id})
      && (forall id :: id in s'.returned <==> id in s.returned || (s'.cell == Some(id) && exists m :: s.masters == {m}))
      && s'.authenticated == s.authenticated && PhaseOf(s', resolver).Idle? && s'.masters == s.masters
  {
    hide SoleMaster;
    ReadToGet(Step(s, Boot(resolver)), resolver, None);
  }

  /** From a resolver that found the cell empty, or did not look, to its end. */
  lemma ReadToGet(s: State, resolver: nat, claimant: Option<Id>)
    requires PhaseOf(s, resolver) == Missed(claimant)
    ensures
      var s' := Step(Step(Step(s, Read(resolver)), Store(resolver)), Get(resolver));
      var sole := exists m :: s.masters == {m};
      && (s.cell.Some? ==> s'.cell == s.cell)
      && (s.cell.None? ==> forall id: Id :: s'.cell == Some(id) <==> s.masters == {id})
      && (forall id :: id in s'.authenticated <==> id in s.authenticated || (sole && claimant == Some(id) && s'.cell == Some(id)))
      && (forall id :: id in s'.returned <==> id in s.returned || (sole && s'.cell == Some(id)))
      && PhaseOf(s', resolver).Idle? && s'.masters == s.masters
  {
    hide SoleMaster;
    var found := SoleMaster(s.masters);
    var s3 := Step(s, Read(resolver));
    if found.Ok? {
      var s4 := Step(s3, Store(resolver));
      assert s4.cell.Some? && PhaseOf(s4, resolver) == Stored(claimant);
      assert s.masters == {found.value};
    } else {
      assert s3.cell == s.cell && PhaseOf(s3, resolver).Idle?;
      assert Step(Step(s3, Store(resolver)), Get(resolver)) == s3;
    }
  }
}
