/**
 * The space a library may take (packages/db/src/library.ts, packages/shared/src/library.ts): every transfer reserves
 * its whole size when it is accepted. The check and the write that reserves are two statements, and what holds of
 * the ceiling and the disk's floor depends on what comes between them.
 */
module LibraryCapacity {
  import opened Prelude

  datatype State = Receiving | Ready | FailedItem

  datatype Item = Item(state: State, size: Option<nat>, received: nat)

  datatype Limits = Limits(ceiling: nat, floor: nat)

  datatype Capacity = Capacity(ceiling: int, used: int, diskFree: int, diskFloor: int)

  datatype Refusal = LibraryFull | DiskLow

  // ---------------------------------------------------------------------------
  // What is used, and what is yet to come
  // ---------------------------------------------------------------------------

  /** What an item holds or has reserved: its size, or what has come so far when that is not known. */
  function Reserved(item: Item): nat {
    if item.state == FailedItem then 0 else if item.size == None then item.received else item.size.value
  }

  /** What a transfer of known size has yet to write. */
  function ToCome(item: Item): nat {
    if item.state == Receiving && item.size.Some? && item.size.value > item.received
    then item.size.value - item.received
    else 0
  }

  function Used(items: seq<Item>): nat {
    if items == [] then 0 else Used(items[..|items| - 1]) + Reserved(items[|items| - 1])
  }

  function Outstanding(items: seq<Item>): nat {
    if items == [] then 0 else Outstanding(items[..|items| - 1]) + ToCome(items[|items| - 1])
  }

  /** The items as a capacity check sees them: one may be left out. */
  function Except(items: seq<Item>, except: Option<nat>): seq<Item> {
    if except.Some? && except.value < |items| then items[..except.value] + items[except.value + 1..] else items
  }

  /** Reads the items and packages that have not failed, and how much of the disk is free. */
  method ReadLibraryCapacity(items: seq<Item>, packages: seq<Item>, except: Option<nat>, limits: Limits,
                             filesystemFree: int)
      returns (c: Capacity)
    ensures var seen := Except(items + packages, except);
            && c.ceiling == limits.ceiling && c.diskFloor == limits.floor
            && c.used == Used(seen)
            && (c.diskFree == if filesystemFree >= Outstanding(seen) then filesystemFree - Outstanding(seen) else 0)
            && c == CapacityOf(seen, limits, filesystemFree)
  {
    var seen := Except(items + packages, except);
    var used, outstanding := 0, 0;
    for k := 0 to |seen|
      invariant used == Used(seen[..k]) && outstanding == Outstanding(seen[..k])
    {
      assert seen[..k + 1][..k] == seen[..k];
      var item := seen[k];
      if item.state == FailedItem {
        continue;
      }
      used := used + if item.size == None then item.received else item.size.value;
      if item.state == Receiving && item.size.Some? && item.size.value > item.received {
        outstanding := outstanding + item.size.value - item.received;
      }
    }
    assert seen[..|seen|] == seen;
    var free := filesystemFree - outstanding;
    c := Capacity(limits.ceiling, used, if free > 0 then free else 0, limits.floor);
  }

  function CapacityOf(items: seq<Item>, limits: Limits, free: int): Capacity {
    var left := if free >= Outstanding(items) then free - Outstanding(items) else 0;
    Capacity(limits.ceiling, Used(items), left, limits.floor)
  }

  function CheckCapacity(c: Capacity, additional: nat): Option<Refusal> {
    if c.used + additional > c.ceiling then Some(LibraryFull)
    else if c.diskFree - additional < c.diskFloor then Some(DiskLow)
    else None
  }

  /** The ceiling is what refuses first, then the disk's floor; what passes breaks neither. */
  lemma RefusalSays(c: Capacity, additional: nat)
    ensures match CheckCapacity(c, additional)
            case Some(LibraryFull) => c.used + additional > c.ceiling
            case Some(DiskLow) => c.used + additional <= c.ceiling && c.diskFree - additional < c.diskFloor
            case None => c.used + additional <= c.ceiling && c.diskFree - additional >= c.diskFloor
  {
  }

  // ---------------------------------------------------------------------------
  // Transfers, statement by statement
  // ---------------------------------------------------------------------------

  /** What a writer has checked there is room for and has yet to put in the database. */
  datatype Ticket =
    | Upload(size: nat)            // an item of this size
    | Download                     // an item whose size the server has yet to say
    | Learned(item: nat, size: nat) // the size of an item, now that the server has said it

  /** The items, what the filesystem has free, and what each writer has checked. */
  datatype Library = Library(items: seq<Item>, free: int, tickets: map<nat, Ticket>)

  datatype Step =
    | Check(w: nat, ticket: Ticket)
    | Commit(w: nat)
    | Receive(item: nat, bytes: nat)    // no more than its size allows
    | Finish(item: nat)
    | Fail(item: nat, freed: nat)       // what it had written may be removed, all or part of it

  predicate Waiting(items: seq<Item>, i: nat) {
    i < |items| && items[i] == Item(Receiving, None, 0)
  }

  /** The check as it is made: for an item already there, with the item itself left out. */
  predicate Passes(l: Library, limits: Limits, ticket: Ticket) {
    match ticket
    case Upload(size) => CheckCapacity(CapacityOf(l.items, limits, l.free), size) == None
    case Download => CheckCapacity(CapacityOf(l.items, limits, l.free), 0) == None
    case Learned(i, size) => CheckCapacity(CapacityOf(Except(l.items, Some(i)), limits, l.free), size) == None
  }

  /**
   * The write as it is made, whatever has happened since the check; an item that has failed reserves nothing any more.
   */
  function Written(items: seq<Item>, ticket: Ticket): seq<Item> {
    match ticket
    case Upload(size) => items + [Item(Receiving, Some(size), 0)]
    case Download => items + [Item(Receiving, None, 0)]
    case Learned(i, size) => if Waiting(items, i) then items[i := Item(Receiving, Some(size), 0)] else items
  }

  function Apply(l: Library, limits: Limits, step: Step): Library {
    match step
    case Check(w, ticket) =>
      if Passes(l, limits, ticket) then l.(tickets := l.tickets[w := ticket]) else l.(tickets := l.tickets - {w})
    case Commit(w) =>
      if w in l.tickets then l.(items := Written(l.items, l.tickets[w]), tickets := l.tickets - {w}) else l
    case Receive(i, bytes) =>
      if i < |l.items| && l.items[i].state == Receiving && l.items[i].size.Some?
         && l.items[i].received + bytes <= l.items[i].size.value
      then l.(items := l.items[i := l.items[i].(received := l.items[i].received + bytes)], free := l.free - bytes)
      else l
    case Finish(i) =>
      if i < |l.items| && l.items[i].state == Receiving && l.items[i].size == Some(l.items[i].received)
      then l.(items := l.items[i := l.items[i].(state := Ready)]) else l
    case Fail(i, freed) =>
      if i < |l.items| && l.items[i].state == Receiving && freed <= l.items[i].received
      then l.(items := l.items[i := l.items[i].(state := FailedItem)], free := l.free + freed) else l
  }

  function Run(l: Library, limits: Limits, steps: seq<Step>): Library {
    if steps == [] then l else Apply(Run(l, limits, steps[..|steps| - 1]), limits, steps[|steps| - 1])
  }

  /** What is reserved fits the ceiling, and what is yet to come leaves the disk its floor. */
  predicate WithinLimits(l: Library, limits: Limits) {
    Used(l.items) <= limits.ceiling && l.free - Outstanding(l.items) >= limits.floor
  }

  lemma SumsOfMore(items: seq<Item>, item: Item)
    ensures Used(items + [item]) == Used(items) + Reserved(item)
    ensures Outstanding(items + [item]) == Outstanding(items) + ToCome(item)
  {
    assert (items + [item])[..|items|] == items;
  }

  lemma {:induction false} SumsOfUpdate(items: seq<Item>, i: nat, item: Item)
    requires i < |items|
    ensures Used(items[i := item]) == Used(items) - Reserved(items[i]) + Reserved(item)
    ensures Outstanding(items[i := item]) == Outstanding(items) - ToCome(items[i]) + ToCome(item)
  {
    var last := |items| - 1;
    var after := items[i := item];
    if i < last {
      assert after[..last] == items[..last][i := item];
      SumsOfUpdate(items[..last], i, item);
    } else {
      assert after[..last] == items[..last];
    }
  }

  lemma {:induction false} SumsWithout(items: seq<Item>, i: nat)
    requires i < |items|
    ensures Used(Except(items, Some(i))) == Used(items) - Reserved(items[i])
    ensures Outstanding(Except(items, Some(i))) == Outstanding(items) - ToCome(items[i])
  {
    var last := |items| - 1;
    var rest := Except(items, Some(i));
    if i < last {
      assert rest == Except(items[..last], Some(i)) + [items[last]];
      SumsWithout(items[..last], i);
      SumsOfMore(Except(items[..last], Some(i)), items[last]);
    } else {
      assert rest == items[..last];
    }
  }

  // ---------------------------------------------------------------------------
  // What a write needs
  // ---------------------------------------------------------------------------

  /** This much more fits under the ceiling and above the floor. */
  predicate Room(l: Library, limits: Limits, size: nat) {
    Used(l.items) + size <= limits.ceiling && l.free - Outstanding(l.items) - size >= limits.floor
  }

  function SizeOf(ticket: Ticket): nat {
    if ticket.Download? then 0 else ticket.size
  }

  /** The write adds something: a size that is no longer waited for does not. */
  predicate Adds(l: Library, ticket: Ticket) {
    ticket.Learned? ==> Waiting(l.items, ticket.item)
  }

  /** There is room for the write now. */
  predicate Fits(l: Library, limits: Limits, ticket: Ticket) {
    Adds(l, ticket) ==> Passes(l, limits, ticket)
  }

  /** Within the limits the check passes exactly when there is room. */
  lemma PassesIffRoom(l: Library, limits: Limits, ticket: Ticket)
    requires WithinLimits(l, limits) && Adds(l, ticket)
    ensures Passes(l, limits, ticket) <==> Room(l, limits, SizeOf(ticket))
  {
    if ticket.Learned? {
      SumsWithout(l.items, ticket.item);
    }
  }

  lemma WrittenSums(l: Library, ticket: Ticket)
    requires Adds(l, ticket)
    ensures Used(Written(l.items, ticket)) == Used(l.items) + SizeOf(ticket)
    ensures Outstanding(Written(l.items, ticket)) == Outstanding(l.items) + SizeOf(ticket)
  {
    match ticket
    case Upload(size) => SumsOfMore(l.items, Item(Receiving, Some(size), 0));
    case Download => SumsOfMore(l.items, Item(Receiving, None, 0));
    case Learned(i, size) => SumsOfUpdate(l.items, i, Item(Receiving, Some(size), 0));
  }

  /** Within the limits, a write stays within them exactly when its check would pass as it is made. */
  lemma WriteKeepsLimitsIff(l: Library, limits: Limits, ticket: Ticket)
    requires WithinLimits(l, limits)
    ensures Fits(l, limits, ticket) <==> WithinLimits(l.(items := Written(l.items, ticket)), limits)
  {
    if Adds(l, ticket) {
      PassesIffRoom(l, limits, ticket);
      WrittenSums(l, ticket);
    }
  }

  /** An item that reserves no more, and whose writing is paid for by the disk, takes no room. */
  lemma UpdateKeepsRoom(l: Library, i: nat, item: Item, free: int)
    requires i < |l.items|
    requires Reserved(item) <= Reserved(l.items[i]) && free - ToCome(item) >= l.free - ToCome(l.items[i])
    ensures Used(l.items[i := item]) <= Used(l.items)
      && free - Outstanding(l.items[i := item]) >= l.free - Outstanding(l.items)
  {
    SumsOfUpdate(l.items, i, item);
  }

  /** Only a write takes room; no other step does, or has an item wait for its size again. */
  lemma OthersKeepRoom(l: Library, limits: Limits, step: Step)
    requires !step.Commit?
    ensures var after := Apply(l, limits, step);
            && Used(after.items) <= Used(l.items)
               && after.free - Outstanding(after.items) >= l.free - Outstanding(l.items)
            && forall i: nat :: Waiting(after.items, i) ==> Waiting(l.items, i)
  {
    if Apply(l, limits, step) != l {
      match step
      case Check(_, _) =>
      case Receive(i, bytes) =>
        UpdateKeepsRoom(l, i, l.items[i].(received := l.items[i].received + bytes), l.free - bytes);
      case Finish(i) => UpdateKeepsRoom(l, i, l.items[i].(state := Ready), l.free);
      case Fail(i, freed) => UpdateKeepsRoom(l, i, l.items[i].(state := FailedItem), l.free + freed);
    }
  }

  lemma OthersKeepFits(l: Library, limits: Limits, step: Step, ticket: Ticket)
    requires !step.Commit? && WithinLimits(l, limits) && Fits(l, limits, ticket)
    ensures WithinLimits(Apply(l, limits, step), limits) && Fits(Apply(l, limits, step), limits, ticket)
  {
    var after := Apply(l, limits, step);
    OthersKeepRoom(l, limits, step);
    if Adds(after, ticket) {
      PassesIffRoom(l, limits, ticket);
      PassesIffRoom(after, limits, ticket);
    }
  }

  // ---------------------------------------------------------------------------
  // Whole runs
  // ---------------------------------------------------------------------------

  ghost predicate AlwaysWithin(l: Library, limits: Limits, steps: seq<Step>) {
    forall n :: 0 <= n <= |steps| ==> WithinLimits(Run(l, limits, steps[..n]), limits)
  }

  /** If step n is a write, there is room for it then. */
  ghost predicate FitsAt(l: Library, limits: Limits, steps: seq<Step>, n: nat)
    requires n < |steps|
  {
    var at := Run(l, limits, steps[..n]);
    steps[n].Commit? && steps[n].w in at.tickets ==> Fits(at, limits, at.tickets[steps[n].w])
  }

  lemma RunOneMore(l: Library, limits: Limits, steps: seq<Step>, n: nat)
    requires n < |steps|
    ensures Run(l, limits, steps[..n + 1]) == Apply(Run(l, limits, steps[..n]), limits, steps[n])
  {
    assert steps[..n + 1][..n] == steps[..n];
  }

  lemma StepWithinIff(l: Library, limits: Limits, steps: seq<Step>, n: nat)
    requires n < |steps| && WithinLimits(Run(l, limits, steps[..n]), limits)
    ensures WithinLimits(Run(l, limits, steps[..n + 1]), limits) <==> FitsAt(l, limits, steps, n)
  {
    var at := Run(l, limits, steps[..n]);
    RunOneMore(l, limits, steps, n);
    if steps[n].Commit? {
      if steps[n].w in at.tickets {
        WriteKeepsLimitsIff(at, limits, at.tickets[steps[n].w]);
      }
    } else {
      OthersKeepRoom(at, limits, steps[n]);
    }
  }

  /** A run stays within the limits throughout exactly when there is room for each write at the moment it is made. */
  lemma WithinIffEachFits(l: Library, limits: Limits, steps: seq<Step>)
    requires WithinLimits(l, limits)
    ensures AlwaysWithin(l, limits, steps) <==> forall n :: 0 <= n < |steps| ==> FitsAt(l, limits, steps, n)
  {
    if AlwaysWithin(l, limits, steps) {
      forall n | 0 <= n < |steps| ensures FitsAt(l, limits, steps, n) {
        StepWithinIff(l, limits, steps, n);
      }
    }
    if forall n :: 0 <= n < |steps| ==> FitsAt(l, limits, steps, n) {
      forall n | 0 <= n <= |steps| ensures WithinLimits(Run(l, limits, steps[..n]), limits) {
        WithinUpTo(l, limits, steps, n);
      }
    }
  }

  lemma {:induction false} WithinUpTo(l: Library, limits: Limits, steps: seq<Step>, n: nat)
    requires WithinLimits(l, limits) && n <= |steps| && forall k :: 0 <= k < n ==> FitsAt(l, limits, steps, k)
    ensures WithinLimits(Run(l, limits, steps[..n]), limits)
  {
    if n > 0 {
      WithinUpTo(l, limits, steps, n - 1);
      StepWithinIff(l, limits, steps, n - 1);
    }
  }

  /** Step m is the check of what writer w has in hand before step n. */
  ghost predicate CheckOf(steps: seq<Step>, m: nat, n: nat, w: nat) {
    && m < n <= |steps| && steps[m].Check? && steps[m].w == w
    && forall k :: m < k < n ==> !(steps[k].Check? && steps[k].w == w) && steps[k] != Commit(w)
  }

  ghost predicate NoWrite(steps: seq<Step>, m: nat, n: nat) {
    forall k :: m < k < n && k < |steps| ==> !steps[k].Commit?
  }

  /** Between a check and its write nobody writes. */
  ghost predicate Serial(steps: seq<Step>) {
    forall m, n :: 0 <= m < n < |steps| && steps[n].Commit? && CheckOf(steps, m, n, steps[n].w) ==> NoWrite(steps, m, n)
  }

  /** What writer w has in hand was checked at step m, and fits as long as nobody has written since. */
  ghost predicate InHand(l: Library, limits: Limits, steps: seq<Step>, n: nat, w: nat, m: nat)
    requires n <= |steps|
  {
    var at := Run(l, limits, steps[..n]);
    && w in at.tickets && CheckOf(steps, m, n, w)
    && (NoWrite(steps, m, n) ==> Fits(at, limits, at.tickets[w]))
  }

  lemma KeepsTicket(l: Library, limits: Limits, step: Step, w: nat)
    requires w in l.tickets && !(step.Check? && step.w == w) && step != Commit(w)
    ensures w in Apply(l, limits, step).tickets && Apply(l, limits, step).tickets[w] == l.tickets[w]
  {
  }

  lemma StaysInHand(l: Library, limits: Limits, steps: seq<Step>, n: nat, w: nat, m: nat)
    requires n < |steps| && WithinLimits(Run(l, limits, steps[..n]), limits) && InHand(l, limits, steps, n, w, m)
    requires !(steps[n].Check? && steps[n].w == w) && steps[n] != Commit(w)
    ensures InHand(l, limits, steps, n + 1, w, m)
  {
    var at := Run(l, limits, steps[..n]);
    RunOneMore(l, limits, steps, n);
    KeepsTicket(at, limits, steps[n], w);
    assert CheckOf(steps, m, n + 1, w);
    if NoWrite(steps, m, n + 1) {
      assert NoWrite(steps, m, n);
      OthersKeepFits(at, limits, steps[n], at.tickets[w]);
    }
  }

  ghost predicate WithinSoFar(l: Library, limits: Limits, steps: seq<Step>, n: nat)
    requires n <= |steps|
  {
    forall k :: 0 <= k <= n ==> WithinLimits(Run(l, limits, steps[..k]), limits)
  }

  lemma TakenInHand(l: Library, limits: Limits, steps: seq<Step>, n: nat, w: nat)
    requires n < |steps| && steps[n].Check? && steps[n].w == w && w in Run(l, limits, steps[..n + 1]).tickets
    ensures InHand(l, limits, steps, n + 1, w, n)
  {
    RunOneMore(l, limits, steps, n);
  }

  lemma HadBefore(l: Library, limits: Limits, steps: seq<Step>, n: nat, w: nat)
    requires n < |steps| && !(steps[n].Check? && steps[n].w == w) && w in Run(l, limits, steps[..n + 1]).tickets
    ensures w in Run(l, limits, steps[..n]).tickets && steps[n] != Commit(w)
  {
    RunOneMore(l, limits, steps, n);
  }

  lemma {:induction false} TicketsAreChecked(l: Library, limits: Limits, steps: seq<Step>, n: nat, w: nat)
    returns (m: nat)
    requires l.tickets == map[] && n <= |steps|
    requires WithinSoFar(l, limits, steps, n)
    requires w in Run(l, limits, steps[..n]).tickets
    ensures InHand(l, limits, steps, n, w, m)
  {
    assert n > 0;
    if steps[n - 1].Check? && steps[n - 1].w == w {
      m := n - 1;
      TakenInHand(l, limits, steps, n - 1, w);
    } else {
      HadBefore(l, limits, steps, n - 1, w);
      m := TicketsAreChecked(l, limits, steps, n - 1, w);
      StaysInHand(l, limits, steps, n - 1, w, m);
    }
  }

  lemma SerialStepFits(l: Library, limits: Limits, steps: seq<Step>, n: nat)
    requires l.tickets == map[] && WithinLimits(l, limits) && Serial(steps) && n < |steps|
    requires WithinSoFar(l, limits, steps, n)
    ensures FitsAt(l, limits, steps, n)
  {
    if steps[n].Commit? && steps[n].w in Run(l, limits, steps[..n]).tickets {
      var m := TicketsAreChecked(l, limits, steps, n, steps[n].w);
      assert NoWrite(steps, m, n);
    }
  }

  lemma {:induction false} SerialUpTo(l: Library, limits: Limits, steps: seq<Step>, n: nat)
    requires l.tickets == map[] && WithinLimits(l, limits) && Serial(steps) && n <= |steps|
    ensures WithinSoFar(l, limits, steps, n)
  {
    if n > 0 {
      SerialUpTo(l, limits, steps, n - 1);
      SerialStepFits(l, limits, steps, n - 1);
      OneMoreWithin(l, limits, steps, n - 1);
    } else {
      assert steps[..0] == [];
    }
  }

  lemma OneMoreWithin(l: Library, limits: Limits, steps: seq<Step>, n: nat)
    requires n < |steps| && WithinSoFar(l, limits, steps, n) && FitsAt(l, limits, steps, n)
    ensures WithinSoFar(l, limits, steps, n + 1)
  {
    StepWithinIff(l, limits, steps, n);
  }

  /** When nobody writes between a check and its write, the limits hold throughout. */
  lemma SerialNeverOverfills(l: Library, limits: Limits, steps: seq<Step>)
    requires l.tickets == map[] && WithinLimits(l, limits) && Serial(steps)
    ensures AlwaysWithin(l, limits, steps)
  {
    SerialUpTo(l, limits, steps, |steps|);
  }

  /** Each check is followed at once by its write. */
  ghost predicate Atomic(steps: seq<Step>) {
    forall m :: 0 <= m < |steps| && steps[m].Check? ==> m + 1 < |steps| && steps[m + 1] == Commit(steps[m].w)
  }

  /** So they do when each check and its write are one step: what is reserved fits, and the disk keeps its floor. */
  lemma AtomicNeverOverfills(l: Library, limits: Limits, steps: seq<Step>, n: nat)
    requires l.tickets == map[] && WithinLimits(l, limits) && Atomic(steps) && n <= |steps|
    ensures var at := Run(l, limits, steps[..n]); Used(at.items) <= limits.ceiling && at.free >= limits.floor
  {
    forall m, k | 0 <= m < k < |steps| && steps[k].Commit? && CheckOf(steps, m, k, steps[k].w)
      ensures NoWrite(steps, m, k)
    {
      assert steps[m + 1] == Commit(steps[m].w);
    }
    SerialNeverOverfills(l, limits, steps);
    assert WithinLimits(Run(l, limits, steps[..n]), limits);
  }

  // ---------------------------------------------------------------------------
  // Two at once
  // ---------------------------------------------------------------------------

  function Race(a: nat, b: nat): seq<Step> {
    [Check(1, Upload(a)), Check(2, Upload(b)), Commit(1), Commit(2)]
  }

  /** Two uploads with room for each but not for both, checked before either is written, end beyond the limits. */
  lemma RaceOverfills(l: Library, limits: Limits, a: nat, b: nat)
    requires WithinLimits(l, limits) && Room(l, limits, a) && Room(l, limits, b) && !Room(l, limits, a + b)
    ensures !WithinLimits(Run(l, limits, Race(a, b)), limits)
    ensures Used(Run(l, limits, Race(a, b)).items) == Used(l.items) + a + b
  {
    RaceGoesThrough(l, limits, a, b);
    var one := l.(items := Written(l.items, Upload(a)));
    WrittenSums(l, Upload(a));
    WrittenSums(one, Upload(b));
  }

  lemma RaceGoesThrough(l: Library, limits: Limits, a: nat, b: nat)
    requires WithinLimits(l, limits) && Room(l, limits, a) && Room(l, limits, b)
    ensures Run(l, limits, Race(a, b)).items == Written(Written(l.items, Upload(a)), Upload(b))
    ensures Run(l, limits, Race(a, b)).free == l.free
  {
    PassesIffRoom(l, limits, Upload(a));
    PassesIffRoom(l, limits, Upload(b));
    var checked := l.(tickets := l.tickets[1 := Upload(a)][2 := Upload(b)]);
    assert Apply(Apply(l, limits, Check(1, Upload(a))), limits, Check(2, Upload(b))) == checked;
    RunOfFour(l, limits, Race(a, b));
  }

  lemma RunOfFour(l: Library, limits: Limits, steps: seq<Step>)
    requires |steps| == 4
    ensures Run(l, limits, steps)
         == Apply(Apply(Apply(Apply(l, limits, steps[0]), limits, steps[1]), limits, steps[2]), limits, steps[3])
  {
    assert steps[..4] == steps && steps[..0] == [];
    assert Run(l, limits, steps[..0]) == l;
    RunTwoMore(l, limits, steps, 0);
    RunTwoMore(l, limits, steps, 2);
  }

  lemma RunTwoMore(l: Library, limits: Limits, steps: seq<Step>, n: nat)
    requires n + 2 <= |steps|
    ensures Run(l, limits, steps[..n + 2])
         == Apply(Apply(Run(l, limits, steps[..n]), limits, steps[n]), limits, steps[n + 1])
  {
    RunOneMore(l, limits, steps, n);
    RunOneMore(l, limits, steps, n + 1);
  }

  /** Two uploads of 10 under a ceiling of 10. */
  lemma TwoUploadsOfTen()
    ensures var l, limits := Library([], 100, map[]), Limits(10, 0);
            WithinLimits(l, limits) && Used(Run(l, limits, Race(10, 10)).items) == 20
  {
    RaceOverfills(Library([], 100, map[]), Limits(10, 0), 10, 10);
  }

  /** A transfer of known size can go on to its last byte, and is ready then. */
  lemma TransferCanFinish(l: Library, limits: Limits, i: nat)
    requires i < |l.items| && l.items[i].state == Receiving && l.items[i].size.Some?
    requires l.items[i].received <= l.items[i].size.value
    ensures var size := l.items[i].size.value;
            var at := Apply(Apply(l, limits, Receive(i, size - l.items[i].received)), limits, Finish(i));
            |at.items| == |l.items| && at.items[i] == Item(Ready, Some(size), size)
  {
  }

  // ---------------------------------------------------------------------------
  // What is on the disk
  // ---------------------------------------------------------------------------

  /** The bytes that have come of an item and are kept; of one that failed none are counted. */
  ghost function KeptOf(item: Item): nat {
    if item.state == FailedItem then 0 else item.received
  }

  ghost function OnDisk(items: seq<Item>): nat {
    if items == [] then 0 else OnDisk(items[..|items| - 1]) + KeptOf(items[|items| - 1])
  }

  /** No more has come than the size; a size that is known has come in full when the item is ready. */
  ghost predicate Sound(item: Item) {
    match item.state
    case Receiving => item.size.Some? ==> item.received <= item.size.value
    case Ready => item.size == Some(item.received)
    case FailedItem => true
  }

  ghost predicate AllSound(items: seq<Item>) {
    forall k :: 0 <= k < |items| ==> Sound(items[k])
  }

  /** What is used is what is on the disk and what is yet to come. */
  lemma {:induction false} UsedIsOnDiskOrToCome(items: seq<Item>)
    requires AllSound(items)
    ensures Used(items) == OnDisk(items) + Outstanding(items)
  {
    if items != [] {
      UsedIsOnDiskOrToCome(items[..|items| - 1]);
    }
  }

  lemma OnDiskOfMore(items: seq<Item>, item: Item)
    ensures OnDisk(items + [item]) == OnDisk(items) + KeptOf(item)
  {
    assert (items + [item])[..|items|] == items;
  }

  lemma {:induction false} OnDiskOfUpdate(items: seq<Item>, i: nat, item: Item)
    requires i < |items|
    ensures OnDisk(items[i := item]) == OnDisk(items) - KeptOf(items[i]) + KeptOf(item)
  {
    var last := |items| - 1;
    var after := items[i := item];
    if i < last {
      assert after[..last] == items[..last][i := item];
      OnDiskOfUpdate(items[..last], i, item);
    } else {
      assert after[..last] == items[..last];
    }
  }

  /** A step writes to the disk what it takes from it, and gives back no more than it removes. */
  lemma StepKeepsBytes(l: Library, limits: Limits, step: Step)
    requires AllSound(l.items)
    ensures var after := Apply(l, limits, step);
            AllSound(after.items) && after.free + OnDisk(after.items) <= l.free + OnDisk(l.items)
    ensures !step.Fail? ==>
      Apply(l, limits, step).free + OnDisk(Apply(l, limits, step).items) == l.free + OnDisk(l.items)
  {
    if Apply(l, limits, step) != l {
      match step
      case Check(_, _) =>
      case Commit(w) => WriteKeepsBytes(l, l.tickets[w]);
      case Receive(i, bytes) =>
        OnDiskOfUpdate(l.items, i, l.items[i].(received := l.items[i].received + bytes));
      case Finish(i) => OnDiskOfUpdate(l.items, i, l.items[i].(state := Ready));
      case Fail(i, freed) => OnDiskOfUpdate(l.items, i, l.items[i].(state := FailedItem));
    }
  }

  lemma WriteKeepsBytes(l: Library, ticket: Ticket)
    requires AllSound(l.items)
    ensures AllSound(Written(l.items, ticket)) && OnDisk(Written(l.items, ticket)) == OnDisk(l.items)
  {
    match ticket
    case Upload(size) => OnDiskOfMore(l.items, Item(Receiving, Some(size), 0));
    case Download => OnDiskOfMore(l.items, Item(Receiving, None, 0));
    case Learned(i, size) =>
      if Waiting(l.items, i) {
        OnDiskOfUpdate(l.items, i, Item(Receiving, Some(size), 0));
      }
  }

  /**
   * Over any run what is used is what has been written and kept and what is yet to come, and what is kept was taken
   * from the disk: together with what is left free it never exceeds what there was.
   */
  lemma {:induction false} UsedIsAccountedFor(l: Library, limits: Limits, steps: seq<Step>)
    requires AllSound(l.items)
    ensures var at := Run(l, limits, steps);
            && AllSound(at.items)
            && Used(at.items) == OnDisk(at.items) + Outstanding(at.items)
            && at.free + OnDisk(at.items) <= l.free + OnDisk(l.items)
  {
    if steps != [] {
      var init := steps[..|steps| - 1];
      UsedIsAccountedFor(l, limits, init);
      StepKeepsBytes(Run(l, limits, init), limits, steps[|steps| - 1]);
    }
    UsedIsOnDiskOrToCome(Run(l, limits, steps).items);
  }
}
