/**
 * Concurrent requests to the VM size cache. The check whether a location is cached and the final read
 * happen outside the lock, so they interleave with the locked fills of other requests.
 */
module SkuConcurrency {
  import opened Wrappers
  import opened Skus

  /** Where a request is: before the check, before the lock, in the two halves of the locked fill, before the read. */
  datatype Phase =
    | Checking
    | Waiting
    | Listing
    | Storing(reply: Cache)
    | Reading
    | Finished(result: Result<Sku, Error>)

  datatype Thread = Thread(location: string, vmType: string, phase: Phase)

  /** `lists` records the locations listed successfully so far. */
  datatype State = State(skus: Catalogue, holder: Option<nat>, threads: seq<Thread>, lists: seq<string>)

  /** Scheduling a thread; `reachable` says whether Azure answers, should the thread ask now. */
  datatype Choice = Choice(thread: nat, reachable: bool)

  function At(s: State, i: nat, phase: Phase): State
    requires i < |s.threads|
  {
    s.(threads := s.threads[i := s.threads[i].(phase := phase)])
  }

  /** One step of thread `i`; a thread that waits for a held lock, or is finished, does not move. */
  function StepThread(azure: Catalogue, s: State, i: nat, reachable: bool): State
    requires i < |s.threads|
  {
    var t := s.threads[i];
    match t.phase
    case Checking =>
      if t.location == "" || t.vmType == "" then At(s, i, Finished(Failure(InvalidRequest)))
      else if t.location in s.skus then At(s, i, Reading)
      else At(s, i, Waiting)
    case Waiting =>
      if s.holder.None? then At(s, i, Listing).(holder := Some(i)) else s
    case Listing =>
      if reachable && t.location in azure then
        At(s, i, Storing(azure[t.location])).(lists := s.lists + [t.location])
      else At(s, i, Finished(Failure(ListFailed))).(holder := None)
    case Storing(reply) =>
      At(s, i, Reading).(skus := s.skus[t.location := reply], holder := None)
    case Reading =>
      var cache := if t.location in s.skus then s.skus[t.location] else map[];
      At(s, i, Finished(if t.vmType in cache then Success(cache[t.vmType]) else Failure(SkuNotFound)))
    case Finished(_) => s
  }

  function Execute(azure: Catalogue, s: State, schedule: seq<Choice>): State {
    if |schedule| == 0 then s
    else
      var before := Execute(azure, s, schedule[..|schedule| - 1]);
      var choice := schedule[|schedule| - 1];
      if choice.thread < |before.threads| then StepThread(azure, before, choice.thread, choice.reachable) else before
  }

  ghost predicate IsInitial(azure: Catalogue, s: State) {
    && IsPartOf(s.skus, azure) && s.holder.None? && s.lists == []
    && forall i :: 0 <= i < |s.threads| ==> s.threads[i].phase.Checking?
  }

  predicate InLock(t: Thread) {
    t.phase.Listing? || t.phase.Storing?
  }

  predicate HasArguments(t: Thread) {
    t.location != "" && t.vmType != ""
  }

  /** What one thread may rely on. */
  ghost predicate ThreadInvariant(azure: Catalogue, skus: Catalogue, t: Thread) {
    match t.phase
    case Checking => true
    case Waiting | Listing => HasArguments(t)
    case Storing(reply) => HasArguments(t) && t.location in azure && reply == azure[t.location]
    case Reading => HasArguments(t) && t.location in skus
    case Finished(result) => result == Find(azure, t.location, t.vmType) || result == Failure(ListFailed)
  }

  ghost predicate Invariant(azure: Catalogue, s: State) {
    && IsPartOf(s.skus, azure)
    && (forall i :: 0 <= i < |s.threads| ==> ThreadInvariant(azure, s.skus, s.threads[i]))
    && (forall i :: 0 <= i < |s.threads| ==> (InLock(s.threads[i]) <==> s.holder == Some(i)))
    && (s.holder.Some? ==> s.holder.value < |s.threads|)
  }

  /** The same requests, in whatever phase. */
  ghost predicate SameRequests(s: State, t: State) {
    && |s.threads| == |t.threads|
    && forall i :: 0 <= i < |s.threads| ==>
                     s.threads[i].location == t.threads[i].location && s.threads[i].vmType == t.threads[i].vmType
  }

  lemma StepKeepsRequests(azure: Catalogue, s: State, i: nat, reachable: bool)
    requires i < |s.threads|
    ensures SameRequests(s, StepThread(azure, s, i, reachable))
  {
  }

  lemma StepKeepsInvariant(azure: Catalogue, s: State, i: nat, reachable: bool)
    requires Invariant(azure, s) && i < |s.threads|
    ensures Invariant(azure, StepThread(azure, s, i, reachable))
    ensures IsPartOf(s.skus, StepThread(azure, s, i, reachable).skus)
  {
    var t := StepThread(azure, s, i, reachable);
    assert ThreadInvariant(azure, s.skus, s.threads[i]);
    forall k | 0 <= k < |t.threads|
      ensures ThreadInvariant(azure, t.skus, t.threads[k])
    {
      assert ThreadInvariant(azure, s.skus, s.threads[k]);
    }
  }

  lemma {:induction false} ExecuteKeepsInvariant(azure: Catalogue, s: State, schedule: seq<Choice>)
    requires Invariant(azure, s)
    ensures Invariant(azure, Execute(azure, s, schedule))
    ensures IsPartOf(s.skus, Execute(azure, s, schedule).skus)
    ensures SameRequests(s, Execute(azure, s, schedule))
  {
    if |schedule| > 0 {
      var init, choice := schedule[..|schedule| - 1], schedule[|schedule| - 1];
      ExecuteKeepsInvariant(azure, s, init);
      var before := Execute(azure, s, init);
      if choice.thread < |before.threads| {
        StepKeepsInvariant(azure, before, choice.thread, choice.reachable);
        StepKeepsRequests(azure, before, choice.thread, choice.reachable);
      }
    }
  }

  /**
   * Under every interleaving each request ends with the answer of a direct lookup for its arguments, or
   * because its own listing failed; in particular no request misses a VM size that exists.
   */
  lemma CacheAgreesWithAzure(azure: Catalogue, s: State, schedule: seq<Choice>, i: nat)
    requires IsInitial(azure, s) && i < |s.threads|
    ensures |Execute(azure, s, schedule).threads| == |s.threads|
    ensures var phase := Execute(azure, s, schedule).threads[i].phase;
            phase.Finished? && phase.result != Failure(ListFailed) ==>
              phase.result == Find(azure, s.threads[i].location, s.threads[i].vmType)
  {
    ExecuteKeepsInvariant(azure, s, schedule);
    var after := Execute(azure, s, schedule);
    assert ThreadInvariant(azure, after.skus, after.threads[i]);
  }

  lemma {:induction false} ExecuteAppend(azure: Catalogue, s: State, first: seq<Choice>, rest: seq<Choice>)
    ensures Execute(azure, s, first + rest) == Execute(azure, Execute(azure, s, first), rest)
  {
    if |rest| == 0 {
      assert first + rest == first;
    } else {
      assert (first + rest)[..|first + rest| - 1] == first + rest[..|rest| - 1];
      ExecuteAppend(azure, s, first, rest[..|rest| - 1]);
    }
  }

  /** A location that is in the cache at some point stays there with the same contents. */
  lemma FilledLocationsNeverChange(azure: Catalogue, s: State, first: seq<Choice>, rest: seq<Choice>, location: string)
    requires IsInitial(azure, s) && location in Execute(azure, s, first).skus
    ensures location in Execute(azure, s, first + rest).skus
    ensures Execute(azure, s, first + rest).skus[location] == Execute(azure, s, first).skus[location]
  {
    ExecuteKeepsInvariant(azure, s, first);
    ExecuteAppend(azure, s, first, rest);
    ExecuteKeepsInvariant(azure, Execute(azure, s, first), rest);
  }

  /** A request past its own successful listing, or one that needed none: it cannot fail to list any more. */
  predicate HasItsListing(t: Thread) {
    t.phase.Storing? || t.phase.Reading? || (t.phase.Finished? && t.phase.result != Failure(ListFailed))
  }

  lemma {:induction false} ListingIsKept(azure: Catalogue, s: State, schedule: seq<Choice>, i: nat)
    requires i < |s.threads| && HasItsListing(s.threads[i])
    ensures i < |Execute(azure, s, schedule).threads| && HasItsListing(Execute(azure, s, schedule).threads[i])
  {
    if |schedule| > 0 {
      ListingIsKept(azure, s, schedule[..|schedule| - 1], i);
    }
  }

  /** What a step of a request may change for others, unless the request has its listing afterwards. */
  lemma StepWithoutListing(azure: Catalogue, s: State, i: nat, reachable: bool)
    requires i < |s.threads| && !HasItsListing(StepThread(azure, s, i, reachable).threads[i])
    ensures StepThread(azure, s, i, reachable).skus == s.skus && StepThread(azure, s, i, reachable).lists == s.lists
    ensures forall k :: 0 <= k < |s.threads| && k != i ==> StepThread(azure, s, i, reachable).threads[k] == s.threads[k]
  {
  }

  lemma StepOfSchedule(azure: Catalogue, s: State, schedule: seq<Choice>, k: nat)
    requires IsInitial(azure, s) && k < |schedule| && schedule[k].thread < |s.threads|
    ensures |Execute(azure, s, schedule[..k]).threads| == |s.threads|
    ensures Execute(azure, s, schedule[..k + 1])
         == StepThread(azure, Execute(azure, s, schedule[..k]), schedule[k].thread, schedule[k].reachable)
    ensures Execute(azure, s, schedule) == Execute(azure, Execute(azure, s, schedule[..k + 1]), schedule[k + 1..])
  {
    ExecuteKeepsInvariant(azure, s, schedule[..k]);
    assert schedule[..k + 1][..k] == schedule[..k];
    assert schedule == schedule[..k + 1] + schedule[k + 1..];
    ExecuteAppend(azure, s, schedule[..k + 1], schedule[k + 1..]);
  }

  /**
   * A request that ends because its listing failed leaves no trace: none of its steps, in whatever
   * interleaving, changes the cache, the recorded listings or another request, and in the end it does
   * not hold the lock.
   */
  lemma FailedRequestLeavesNoTrace(azure: Catalogue, s: State, schedule: seq<Choice>, k: nat, i: nat)
    requires IsInitial(azure, s) && i < |s.threads| && k < |schedule| && schedule[k].thread == i
    requires |Execute(azure, s, schedule).threads| == |s.threads|
    requires Execute(azure, s, schedule).threads[i].phase == Finished(Failure(ListFailed))
    ensures var was, now := Execute(azure, s, schedule[..k]), Execute(azure, s, schedule[..k + 1]);
            && now.skus == was.skus && now.lists == was.lists && |now.threads| == |was.threads| == |s.threads|
            && forall j :: 0 <= j < |s.threads| && j != i ==> now.threads[j] == was.threads[j]
    ensures Execute(azure, s, schedule).holder != Some(i)
  {
    var was, now := Execute(azure, s, schedule[..k]), Execute(azure, s, schedule[..k + 1]);
    StepOfSchedule(azure, s, schedule, k);
    if HasItsListing(now.threads[i]) {
      ListingIsKept(azure, now, schedule[k + 1..], i);
    } else {
      StepWithoutListing(azure, was, i, schedule[k].reachable);
    }
    ExecuteKeepsInvariant(azure, s, schedule);
    assert InLock(Execute(azure, s, schedule).threads[i]) <==> Execute(azure, s, schedule).holder == Some(i);
  }

  /** Every location in the cache has been there from the start, or has been listed. */
  ghost predicate CacheIsAccountedFor(s: State, t: State) {
    && (forall location | location in t.skus :: location in s.skus || location in t.lists)
    && (forall i :: 0 <= i < |t.threads| && t.threads[i].phase.Storing? ==> t.threads[i].location in t.lists)
  }

  lemma StepKeepsAccount(azure: Catalogue, s: State, t: State, i: nat, reachable: bool)
    requires CacheIsAccountedFor(s, t) && i < |t.threads|
    ensures CacheIsAccountedFor(s, StepThread(azure, t, i, reachable))
  {
    var u := StepThread(azure, t, i, reachable);
    assert forall x :: x in t.lists ==> x in u.lists;
    forall k | 0 <= k < |u.threads| && u.threads[k].phase.Storing?
      ensures u.threads[k].location in u.lists
    {
      assert k == i || u.threads[k] == t.threads[k];
    }
  }

  /** The cache is filled by successful listings only; without any it stays as it was at the start. */
  lemma {:induction false} CacheComesFromListings(azure: Catalogue, s: State, schedule: seq<Choice>)
    requires IsInitial(azure, s)
    ensures CacheIsAccountedFor(s, Execute(azure, s, schedule))
    ensures Execute(azure, s, schedule).lists == [] ==> Execute(azure, s, schedule).skus == s.skus
  {
    if |schedule| > 0 {
      var init, choice := schedule[..|schedule| - 1], schedule[|schedule| - 1];
      CacheComesFromListings(azure, s, init);
      var before := Execute(azure, s, init);
      if choice.thread < |before.threads| {
        StepKeepsAccount(azure, s, before, choice.thread, choice.reachable);
      }
    }
    ExecuteKeepsInvariant(azure, s, schedule);
    assert IsPartOf(s.skus, Execute(azure, s, schedule).skus);
  }

  /** At most one thread is inside the locked fill. */
  lemma FillsExcludeEachOther(azure: Catalogue, s: State, schedule: seq<Choice>, i: nat, j: nat)
    requires IsInitial(azure, s)
    requires i < |Execute(azure, s, schedule).threads| && j < |Execute(azure, s, schedule).threads|
    requires InLock(Execute(azure, s, schedule).threads[i]) && InLock(Execute(azure, s, schedule).threads[j])
    ensures i == j
  {
    ExecuteKeepsInvariant(azure, s, schedule);
  }

  /** No deadlock: while a request is unfinished, some thread can move. */
  lemma SomeThreadCanMove(azure: Catalogue, s: State, schedule: seq<Choice>, i: nat) returns (k: nat)
    requires IsInitial(azure, s) && i < |Execute(azure, s, schedule).threads|
    requires !Execute(azure, s, schedule).threads[i].phase.Finished?
    ensures var now := Execute(azure, s, schedule);
            k < |now.threads| && StepThread(azure, now, k, true).threads[k].phase != now.threads[k].phase
  {
    ExecuteKeepsInvariant(azure, s, schedule);
    var now := Execute(azure, s, schedule);
    k := if now.threads[i].phase.Waiting? && now.holder.Some? then now.holder.value else i;
    assert now.holder == Some(k) ==> InLock(now.threads[k]);
  }

  /** Two requests that both check before either fills list the same location twice. */
  lemma ConcurrentRequestsMayListTwice()
    ensures exists azure, s, schedule ::
              IsInitial(azure, s) && Execute(azure, s, schedule).lists == ["westeurope", "westeurope"]
  {
    var azure: Catalogue := map["westeurope" := map[]];
    var t := Thread("westeurope", "Standard_D4s_v3", Checking);
    var s0 := State(map[], None, [t, t], []);
    var a, b := Choice(0, true), Choice(1, true);
    var schedule := [a, b, a, a, a, b, b];
    var s1 := StepThread(azure, s0, 0, true);
    var s2 := StepThread(azure, s1, 1, true);
    var s3 := StepThread(azure, s2, 0, true);
    var s4 := StepThread(azure, s3, 0, true);
    var s5 := StepThread(azure, s4, 0, true);
    var s6 := StepThread(azure, s5, 1, true);
    var s7 := StepThread(azure, s6, 1, true);
    assert s7.lists == ["westeurope", "westeurope"];
    assert schedule[..6] == [a, b, a, a, a, b] && schedule[..6][..5] == [a, b, a, a, a];
    assert schedule[..6][..5][..4] == [a, b, a, a] && [a, b, a, a][..3] == [a, b, a];
    assert [a, b, a][..2] == [a, b] && [a, b][..1] == [a] && [a][..0] == [];
    assert Execute(azure, s0, [a]) == s1;
    assert Execute(azure, s0, [a, b]) == s2;
    assert Execute(azure, s0, [a, b, a]) == s3;
    assert Execute(azure, s0, [a, b, a, a]) == s4;
    assert Execute(azure, s0, [a, b, a, a, a]) == s5;
    assert Execute(azure, s0, [a, b, a, a, a, b]) == s6;
    assert Execute(azure, s0, schedule) == s7;
    assert IsInitial(azure, s0);
  }

  /** How often a location has been listed. */
  function Listings(s: State, location: string): nat {
    multiset(s.lists)[location]
  }

  /** A request has checked for the location and will list it. */
  predicate WillList(t: Thread, location: string) {
    t.location == location && (t.phase.Waiting? || t.phase.Listing?)
  }

  predicate SomeoneWillList(s: State, location: string) {
    exists i :: 0 <= i < |s.threads| && WillList(s.threads[i], location)
  }

  lemma StepLists(azure: Catalogue, s: State, i: nat, reachable: bool, location: string)
    requires i < |s.threads|
    ensures var t := StepThread(azure, s, i, reachable);
            Listings(t, location) == Listings(s, location)
              + if s.threads[i].phase.Listing? && reachable && location in azure && s.threads[i].location == location
                then 1 else 0
    ensures location in s.skus ==> location in StepThread(azure, s, i, reachable).skus
  {
  }

  lemma StepStaysQuiet(azure: Catalogue, s: State, i: nat, reachable: bool, location: string)
    requires i < |s.threads| && location in s.skus && !SomeoneWillList(s, location)
    ensures !SomeoneWillList(StepThread(azure, s, i, reachable), location)
  {
    var t := StepThread(azure, s, i, reachable);
    forall k | 0 <= k < |t.threads|
      ensures !WillList(t.threads[k], location)
    {
      assert !WillList(s.threads[k], location);
    }
  }

  /** A cached location that no request is about to list is never listed again. */
  lemma {:induction false} NoMoreListings(azure: Catalogue, s: State, rest: seq<Choice>, location: string)
    requires location in s.skus && !SomeoneWillList(s, location)
    ensures location in Execute(azure, s, rest).skus && !SomeoneWillList(Execute(azure, s, rest), location)
    ensures Listings(Execute(azure, s, rest), location) == Listings(s, location)
  {
    if |rest| > 0 {
      var init, choice := rest[..|rest| - 1], rest[|rest| - 1];
      NoMoreListings(azure, s, init, location);
      var before := Execute(azure, s, init);
      if choice.thread < |before.threads| {
        assert !WillList(before.threads[choice.thread], location);
        StepLists(azure, before, choice.thread, choice.reachable, location);
        StepStaysQuiet(azure, before, choice.thread, choice.reachable, location);
      }
    }
  }

  lemma ExecuteOne(azure: Catalogue, s: State, choice: Choice, rest: seq<Choice>)
    requires choice.thread < |s.threads|
    ensures Execute(azure, s, [choice] + rest)
         == Execute(azure, StepThread(azure, s, choice.thread, choice.reachable), rest)
  {
    ExecuteAppend(azure, s, [choice], rest);
    assert [choice][..0] == [] && Execute(azure, s, []) == s;
  }

  /** A request that holds the lock to list a location may do so next. */
  lemma ListNow(azure: Catalogue, s: State, i: nat, location: string) returns (rest: seq<Choice>)
    requires i < |s.threads| && s.threads[i].phase.Listing? && s.threads[i].location == location && location in azure
    ensures Listings(Execute(azure, s, rest), location) > Listings(s, location)
  {
    rest := [Choice(i, true)] + [];
    ExecuteOne(azure, s, Choice(i, true), []);
    StepLists(azure, s, i, true, location);
  }

  /** A request that waits for a free lock may take it and then list. */
  lemma LockAndList(azure: Catalogue, s: State, i: nat, location: string) returns (rest: seq<Choice>)
    requires i < |s.threads| && s.threads[i].phase.Waiting? && s.threads[i].location == location && location in azure
    requires s.holder.None?
    ensures Listings(Execute(azure, s, rest), location) > Listings(s, location)
  {
    var locked := StepThread(azure, s, i, true);
    StepLists(azure, s, i, true, location);
    var more := ListNow(azure, locked, i, location);
    rest := [Choice(i, true)] + more;
    ExecuteOne(azure, s, Choice(i, true), more);
  }

  /** The holder of the lock gives it back when it stores its reply, or when its listing fails. */
  lemma ReleaseLock(azure: Catalogue, s: State, j: nat, i: nat, location: string)
    requires j < |s.threads| && i < |s.threads| && i != j && InLock(s.threads[j])
    ensures var t := StepThread(azure, s, j, false);
            t.holder.None? && |t.threads| == |s.threads| && t.threads[i] == s.threads[i]
            && Listings(t, location) == Listings(s, location)
  {
  }

  lemma ListSoon(azure: Catalogue, s: State, i: nat, location: string) returns (rest: seq<Choice>)
    requires Invariant(azure, s) && i < |s.threads| && WillList(s.threads[i], location) && location in azure
    ensures Listings(Execute(azure, s, rest), location) > Listings(s, location)
  {
    if s.threads[i].phase.Listing? {
      rest := ListNow(azure, s, i, location);
    } else if s.holder.None? {
      rest := LockAndList(azure, s, i, location);
    } else {
      var j := s.holder.value;
      assert InLock(s.threads[j]) && i != j;
      ReleaseLock(azure, s, j, i, location);
      var more := LockAndList(azure, StepThread(azure, s, j, false), i, location);
      rest := [Choice(j, false)] + more;
      ExecuteOne(azure, s, Choice(j, false), more);
    }
  }

  /**
   * When a cached location may be listed again: exactly when some request for it has made its check
   * before the location was cached, and waits for the lock or is listing. Every later request finds it.
   */
  lemma RelistingExactly(azure: Catalogue, s: State, first: seq<Choice>, location: string)
    requires IsInitial(azure, s) && location in Execute(azure, s, first).skus
    ensures (exists rest :: Listings(Execute(azure, s, first + rest), location)
                            > Listings(Execute(azure, s, first), location))
       <==> SomeoneWillList(Execute(azure, s, first), location)
  {
    var now := Execute(azure, s, first);
    ExecuteKeepsInvariant(azure, s, first);
    if SomeoneWillList(now, location) {
      var i :| 0 <= i < |now.threads| && WillList(now.threads[i], location);
      var rest := ListSoon(azure, now, i, location);
      ExecuteAppend(azure, s, first, rest);
      assert Listings(Execute(azure, s, first + rest), location) > Listings(now, location);
    } else {
      forall rest: seq<Choice>
        ensures Listings(Execute(azure, s, first + rest), location) == Listings(now, location)
      {
        ExecuteAppend(azure, s, first, rest);
        NoMoreListings(azure, now, rest, location);
      }
    }
  }
}
