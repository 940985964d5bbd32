/** The SuperVersion thread-local cache: an atomic swap, a compare-and-swap, a slot-by-slot scrape and
    reference counts under one mutex, as a step relation over every interleaving of any set of
    reader threads with installs. */
module SuperVersion {
  import opened DbFormat

  type Tid = nat
  type Sv = nat

  /** A thread-local pointer: kSVObsolete, kSVInUse, or a cached SuperVersion. */
  datatype Slot = Obsolete | InUse | Cached(sv: Sv)

  /** Where a reader stands. `began` is the version number when its call began; `owes` is a
      SuperVersion whose last reference it dropped; `extra` is the reference that
      GetReferencedSuperVersion is about to hand out. */
  datatype Pc =
    | Idle
    | Swapped(ptr: Slot, began: nat)
    | Stale(sv: Sv, began: nat)
    | Waiting(owes: Option<Sv>, began: nat)
    | Locked(owes: Option<Sv>, began: nat)
    | Using(sv: Sv, began: nat, extra: Option<nat>)
    | Rejected(sv: Sv, extra: Option<nat>)
    | Owing(debt: Sv)

  /** Progress of InstallSuperVersion, which holds the mutex throughout. */
  datatype Install =
    | NoInstall
    | Fresh(new_: Sv)
    | Switched(new_: Sv, old_: Sv)
    | Bumped(new_: Sv, old_: Sv)
    | Scraping(old_: Sv, pending: set<Tid>, scraped: seq<Sv>)

  datatype Owner = Free | Reader(t: Tid) | Installer

  datatype State = State(
    slots: map<Tid, Slot>,
    pcs: map<Tid, Pc>,
    refs: map<Sv, int>,          // reference counters of every SuperVersion ever created
    numbers: map<Sv, nat>,       // version_number, once assigned
    cleaned: set<Sv>,            // Cleanup has run
    current: Sv,                 // super_version_
    number: nat,                 // super_version_number_
    extras: map<nat, Sv>,        // references handed out by GetReferencedSuperVersion
    mutex: Owner,
    install: Install)

  // ------------------------------------------------------------------
  // Steps
  // ------------------------------------------------------------------

  datatype Step =
    | Swap(t: Tid)               // GetThreadLocalSuperVersion: take the slot
    | Check(t: Tid)              //   compare version numbers
    | DropStale(t: Tid)          //   Unref an outdated cached SuperVersion
    | Lock(t: Tid)               //   take the mutex
    | CleanOwed(t: Tid)          //   Cleanup under the mutex
    | Acquire(t: Tid)            //   Ref the installed SuperVersion and unlock
    | TakeExtra(t: Tid, x: nat)  // GetReferencedSuperVersion: the additional Ref
    | Return(t: Tid)             // ReturnThreadLocalSuperVersion: compare-and-swap
    | DropRejected(t: Tid)       // Unref after a failed compare-and-swap
    | PayDebt(t: Tid)            // Cleanup after dropping the last reference
    | ReleaseExtra(t: Tid, x: nat)
    | ClearSlot(t: Tid)          // unref handler at thread exit or when the slots are reset
    | StartInstall(created: Sv)    // InstallSuperVersion: lock and Init
    | Switch                     //   super_version_ = new
    | Bump                       //   ++super_version_number_
    | SetNumber                  //   new->version_number = super_version_number_
    | Scrape(t: Tid)             //   swap one slot to kSVObsolete
    | DropScraped                //   Unref one scraped SuperVersion
    | Retire                     //   Unref the old SuperVersion, unlock

  predicate Enabled(st: State, step: Step) {
    match step
    case Swap(t) => t in st.pcs && t in st.slots && st.pcs[t] == Idle
    case Check(t) => t in st.pcs && st.pcs[t].Swapped? && st.pcs[t].ptr != InUse
    case DropStale(t) => t in st.pcs && st.pcs[t].Stale?
    case Lock(t) => t in st.pcs && st.pcs[t].Waiting? && st.mutex == Free
    case CleanOwed(t) => t in st.pcs && st.pcs[t].Locked? && st.pcs[t].owes.Some?
    case Acquire(t) => t in st.pcs && st.pcs[t].Locked? && st.pcs[t].owes == None
    case TakeExtra(t, x) => t in st.pcs && st.pcs[t].Using? && st.pcs[t].extra == None && x !in st.extras
    case Return(t) => t in st.pcs && t in st.slots && st.pcs[t].Using?
    case DropRejected(t) => t in st.pcs && st.pcs[t].Rejected?
    case PayDebt(t) => t in st.pcs && st.pcs[t].Owing? && st.mutex == Free
    case ReleaseExtra(t, x) => t in st.pcs && st.pcs[t] == Idle && x in st.extras && !HandingOut(st, x)
    case ClearSlot(t) => t in st.pcs && t in st.slots && st.pcs[t] == Idle && st.slots[t].Cached?
    case StartInstall(s) => st.mutex == Free && s !in st.refs
    case Switch => st.install.Fresh?
    case Bump => st.install.Switched?
    case SetNumber => st.install.Bumped?
    case Scrape(t) => st.install.Scraping? && t in st.install.pending && t in st.slots
    case DropScraped => st.install.Scraping? && st.install.pending == {} && st.install.scraped != []
    case Retire => st.install.Scraping? && st.install.pending == {} && st.install.scraped == []
  }

  /** A GetReferencedSuperVersion call that has not returned yet owns x. */
  predicate HandingOut(st: State, x: nat) {
    exists t :: t in st.pcs && ExtraOf(st.pcs[t]) == Some(x)
  }

  function ExtraOf(pc: Pc): Option<nat> {
    match pc
    case Using(_, _, x) => x
    case Rejected(_, x) => x
    case _ => None
  }

  function RefsOf(st: State, s: Sv): int {
    if s in st.refs then st.refs[s] else 0
  }

  predicate HasNumber(st: State, s: Sv, n: nat) { s in st.numbers && st.numbers[s] == n }

  function Ref(st: State, s: Sv): State {
    st.(refs := st.refs[s := RefsOf(st, s) + 1])
  }

  /** fetch_sub: the caller compares the previous count with 1. */
  function Unref(st: State, s: Sv): State {
    st.(refs := st.refs[s := RefsOf(st, s) - 1])
  }

  function Goto(st: State, t: Tid, pc: Pc): State {
    st.(pcs := st.pcs[t := pc])
  }

  /** Unref by a thread holding the mutex, which cleans up at once. */
  function UnrefLocked(st: State, s: Sv): State {
    var st' := Unref(st, s);
    if RefsOf(st, s) == 1 then st'.(cleaned := st.cleaned + {s}) else st'
  }

  // The effect of each step, on a state in which it is enabled.

  function DoSwap(st: State, t: Tid): State
    requires t in st.slots
  {
    Goto(st.(slots := st.slots[t := InUse]), t, Swapped(st.slots[t], st.number))
  }

  function DoCheck(st: State, t: Tid): State
    requires t in st.pcs && st.pcs[t].Swapped? && st.pcs[t].ptr != InUse
  {
    var pc := st.pcs[t];
    if pc.ptr == Obsolete then Goto(st, t, Waiting(None, pc.began))
    else if HasNumber(st, pc.ptr.sv, st.number) then Goto(st, t, Using(pc.ptr.sv, pc.began, None))
    else Goto(st, t, Stale(pc.ptr.sv, pc.began))
  }

  function DoDropStale(st: State, t: Tid): State
    requires t in st.pcs && st.pcs[t].Stale?
  {
    var s := st.pcs[t].sv;
    Goto(Unref(st, s), t, Waiting(if RefsOf(st, s) == 1 then Some(s) else None, st.pcs[t].began))
  }

  function DoLock(st: State, t: Tid): State
    requires t in st.pcs && st.pcs[t].Waiting?
  {
    Goto(st.(mutex := Reader(t)), t, Locked(st.pcs[t].owes, st.pcs[t].began))
  }

  function DoCleanOwed(st: State, t: Tid): State
    requires t in st.pcs && st.pcs[t].Locked? && st.pcs[t].owes.Some?
  {
    Goto(st.(cleaned := st.cleaned + {st.pcs[t].owes.value}), t, Locked(None, st.pcs[t].began))
  }

  function DoAcquire(st: State, t: Tid): State
    requires t in st.pcs && st.pcs[t].Locked?
  {
    Goto(Ref(st, st.current).(mutex := Free), t, Using(st.current, st.pcs[t].began, None))
  }

  function DoTakeExtra(st: State, t: Tid, x: nat): State
    requires t in st.pcs && st.pcs[t].Using?
  {
    var s := st.pcs[t].sv;
    Goto(Ref(st, s).(extras := st.extras[x := s]), t, Using(s, st.pcs[t].began, Some(x)))
  }

  function DoReturn(st: State, t: Tid): State
    requires t in st.pcs && t in st.slots && st.pcs[t].Using?
  {
    var pc := st.pcs[t];
    if st.slots[t] == InUse then Goto(st.(slots := st.slots[t := Cached(pc.sv)]), t, Idle)
    else Goto(st, t, Rejected(pc.sv, pc.extra))
  }

  function DoDropRejected(st: State, t: Tid): State
    requires t in st.pcs && st.pcs[t].Rejected?
  {
    var pc := st.pcs[t];
    Goto(Unref(st, pc.sv), t, if pc.extra == None && RefsOf(st, pc.sv) == 1 then Owing(pc.sv) else Idle)
  }

  function DoPayDebt(st: State, t: Tid): State
    requires t in st.pcs && st.pcs[t].Owing?
  {
    Goto(st.(cleaned := st.cleaned + {st.pcs[t].debt}), t, Idle)
  }

  function DoReleaseExtra(st: State, t: Tid, x: nat): State
    requires x in st.extras
  {
    var s := st.extras[x];
    Goto(Unref(st, s).(extras := st.extras - {x}), t, if RefsOf(st, s) == 1 then Owing(s) else Idle)
  }

  function DoClearSlot(st: State, t: Tid): State
    requires t in st.slots && st.slots[t].Cached?
  {
    var s := st.slots[t].sv;
    Goto(Unref(st, s).(slots := st.slots[t := Obsolete]), t, if RefsOf(st, s) == 1 then Owing(s) else Idle)
  }

  function DoStartInstall(st: State, s: Sv): State {
    st.(mutex := Installer, refs := st.refs[s := 1], install := Fresh(s))
  }

  function DoSwitch(st: State): State
    requires st.install.Fresh?
  {
    st.(current := st.install.new_, install := Switched(st.install.new_, st.current))
  }

  function DoBump(st: State): State
    requires st.install.Switched?
  {
    st.(number := st.number + 1, install := Bumped(st.install.new_, st.install.old_))
  }

  function DoSetNumber(st: State): State
    requires st.install.Bumped?
  {
    st.(numbers := st.numbers[st.install.new_ := st.number], install := Scraping(st.install.old_, st.slots.Keys, []))
  }

  function DoScrape(st: State, t: Tid): State
    requires st.install.Scraping? && t in st.slots
  {
    var i := st.install;
    var scraped := if st.slots[t].Cached? then i.scraped + [st.slots[t].sv] else i.scraped;
    st.(slots := st.slots[t := Obsolete], install := Scraping(i.old_, i.pending - {t}, scraped))
  }

  function DoDropScraped(st: State): State
    requires st.install.Scraping? && st.install.scraped != []
  {
    var i := st.install;
    var last := |i.scraped| - 1;
    UnrefLocked(st, i.scraped[last]).(install := Scraping(i.old_, i.pending, i.scraped[..last]))
  }

  function DoRetire(st: State): State
    requires st.install.Scraping?
  {
    UnrefLocked(st, st.install.old_).(install := NoInstall, mutex := Free)
  }

  function Apply(st: State, step: Step): State
    requires Enabled(st, step)
  {
    match step
    case Swap(t) => DoSwap(st, t)
    case Check(t) => DoCheck(st, t)
    case DropStale(t) => DoDropStale(st, t)
    case Lock(t) => DoLock(st, t)
    case CleanOwed(t) => DoCleanOwed(st, t)
    case Acquire(t) => DoAcquire(st, t)
    case TakeExtra(t, x) => DoTakeExtra(st, t, x)
    case Return(t) => DoReturn(st, t)
    case DropRejected(t) => DoDropRejected(st, t)
    case PayDebt(t) => DoPayDebt(st, t)
    case ReleaseExtra(t, x) => DoReleaseExtra(st, t, x)
    case ClearSlot(t) => DoClearSlot(st, t)
    case StartInstall(s) => DoStartInstall(st, s)
    case Switch => DoSwitch(st)
    case Bump => DoBump(st)
    case SetNumber => DoSetNumber(st)
    case Scrape(t) => DoScrape(st, t)
    case DropScraped => DoDropScraped(st)
    case Retire => DoRetire(st)
  }

  // ------------------------------------------------------------------
  // Who holds a reference
  // ------------------------------------------------------------------

  datatype Holder = CurrentRef | FreshRef | OldRef | SlotRef(t: Tid) | UserRef(t: Tid) | ExtraRef(x: nat) | ScrapedRef(i: nat)

  /** The reference a reader carries with it. */
  function Carries(pc: Pc): Option<Sv> {
    match pc
    case Swapped(ptr, _) => if ptr.Cached? then Some(ptr.sv) else None
    case Stale(s, _) => Some(s)
    case Using(s, _, _) => Some(s)
    case Rejected(s, _) => Some(s)
    case _ => None
  }

  function Holds(st: State, h: Holder): Option<Sv> {
    match h
    case CurrentRef => Some(st.current)
    case FreshRef => if st.install.Fresh? then Some(st.install.new_) else None
    case OldRef => if st.install.Switched? || st.install.Bumped? || st.install.Scraping? then Some(st.install.old_) else None
    case SlotRef(t) => if t in st.slots && st.slots[t].Cached? then Some(st.slots[t].sv) else None
    case UserRef(t) => if t in st.pcs then Carries(st.pcs[t]) else None
    case ExtraRef(x) => if x in st.extras then Some(st.extras[x]) else None
    case ScrapedRef(i) => if st.install.Scraping? && i < |st.install.scraped| then Some(st.install.scraped[i]) else None
  }

  /** hs is everything that refers to s: the installed pointer, thread-local slots, readers using it,
      explicit extra references, and an install's own bookkeeping. */
  ghost predicate AreHolders(st: State, s: Sv, hs: set<Holder>) {
    forall h :: h in hs <==> Holds(st, h) == Some(s)
  }

  /** s has exactly n holders. */
  ghost predicate HeldBy(st: State, s: Sv, n: int) {
    exists hs: set<Holder> :: AreHolders(st, s, hs) && |hs| == n
  }

  /** All holders but those listed refer to what they did. */
  ghost predicate SameExcept(st: State, st': State, hs: set<Holder>) {
    forall h :: h !in hs ==> Holds(st, h) == Holds(st', h)
  }

  function One(b: bool): nat { if b then 1 else 0 }

  /** One holder changes what it refers to. */
  lemma HoldersChange(st: State, st': State, h: Holder, s: Sv, n: int)
    requires SameExcept(st, st', {h}) && HeldBy(st, s, n)
    ensures HeldBy(st', s, n - One(Holds(st, h) == Some(s)) + One(Holds(st', h) == Some(s)))
  {
    var a: set<Holder> :| AreHolders(st, s, a) && |a| == n;
    var b := if Holds(st', h) == Some(s) then a + {h} else a - {h};
    forall g ensures g in b <==> Holds(st', g) == Some(s) {
      assert g != h ==> Holds(st, g) == Holds(st', g);
    }
    assert AreHolders(st', s, b);
  }

  /** c counts the holders of every SuperVersion. */
  ghost predicate CountedAs(st: State, c: map<Sv, int>) {
    && (forall s :: s in c ==> HeldBy(st, s, c[s]))
    && (forall h :: Holds(st, h).Some? ==> Holds(st, h).value in c)
  }

  lemma Lose(st: State, st': State, h: Holder, c: map<Sv, int>, s: Sv)
    requires CountedAs(st, c) && SameExcept(st, st', {h}) && Holds(st, h) == Some(s) && Holds(st', h) == None
    ensures s in c && CountedAs(st', c[s := c[s] - 1])
  {
    forall r | r in c ensures HeldBy(st', r, c[s := c[s] - 1][r]) {
      HoldersChange(st, st', h, r, c[r]);
    }
    assert forall g :: Holds(st', g).Some? ==> Holds(st, g) == Holds(st', g);
  }

  lemma Gain(st: State, st': State, h: Holder, c: map<Sv, int>, s: Sv)
    requires CountedAs(st, c) && SameExcept(st, st', {h}) && Holds(st, h) == None && Holds(st', h) == Some(s) && s in c
    ensures CountedAs(st', c[s := c[s] + 1])
  {
    forall r | r in c ensures HeldBy(st', r, c[s := c[s] + 1][r]) {
      HoldersChange(st, st', h, r, c[r]);
    }
    assert forall g :: g != h && Holds(st', g).Some? ==> Holds(st, g) == Holds(st', g);
  }

  lemma Same(st: State, st': State, h: Holder, c: map<Sv, int>)
    requires CountedAs(st, c) && SameExcept(st, st', {h}) && Holds(st, h) == Holds(st', h)
    ensures CountedAs(st', c)
  {
    forall r | r in c ensures HeldBy(st', r, c[r]) {
      HoldersChange(st, st', h, r, c[r]);
    }
    assert forall g :: Holds(st', g).Some? ==> Holds(st, g) == Holds(st', g);
  }

  /** A reference moves from one holder to another. */
  lemma Transfer(st: State, mid: State, st': State, h: Holder, g: Holder, c: map<Sv, int>, s: Sv)
    requires CountedAs(st, c) && SameExcept(st, mid, {h}) && SameExcept(mid, st', {g})
    requires Holds(st, h) == Some(s) && Holds(mid, h) == None && Holds(mid, g) == None && Holds(st', g) == Some(s)
    ensures CountedAs(st', c)
  {
    Lose(st, mid, h, c, s);
    Gain(mid, st', g, c[s := c[s] - 1], s);
    assert c[s := c[s] - 1][s := c[s]] == c;
  }

  // ------------------------------------------------------------------
  // The invariant
  // ------------------------------------------------------------------

  /** Every counter is the number of its holders, and only counted SuperVersions are held. */
  ghost predicate Counted(st: State) {
    CountedAs(st, st.refs)
  }

  /** The SuperVersion that a reader must still clean up. */
  function Debt(pc: Pc): Option<Sv> {
    match pc
    case Waiting(o, _) => o
    case Locked(o, _) => o
    case Owing(s) => Some(s)
    case _ => None
  }

  /** What t owes is unreferenced, not cleaned up, and owed by t alone. */
  ghost predicate DebtOk(st: State, t: Tid)
    requires t in st.pcs
  {
    Debt(st.pcs[t]).Some? ==>
      var s := Debt(st.pcs[t]).value;
      && s in st.refs && st.refs[s] == 0 && s !in st.cleaned
      && (forall t' :: t' in st.pcs && Debt(st.pcs[t']) == Some(s) ==> t' == t)
  }

  ghost predicate Owed(st: State, s: Sv) {
    exists t :: t in st.pcs && Debt(st.pcs[t]) == Some(s)
  }

  /** A referenced SuperVersion is not cleaned up; an unreferenced one is, or somebody owes it. */
  ghost predicate SvOk(st: State, s: Sv) {
    s in st.refs && st.refs[s] >= 0 && if st.refs[s] > 0 then s !in st.cleaned else s in st.cleaned || Owed(st, s)
  }

  ghost predicate Accounted(st: State) {
    && st.cleaned <= st.refs.Keys
    && (forall t :: t in st.pcs ==> DebtOk(st, t))
    && (forall s :: s in st.refs ==> SvOk(st, s))
  }

  /** A call between its swap and its return. */
  predicate InCall(pc: Pc) {
    pc.Swapped? || pc.Stale? || pc.Waiting? || pc.Locked? || pc.Using?
  }

  /** Slots that an install in progress has yet to scrape. */
  function Pending(st: State): set<Tid> {
    if st.install.Bumped? then st.slots.Keys
    else if st.install.Scraping? then st.install.pending
    else {}
  }

  /** s is the newest SuperVersion, or an install in progress will still scrape slot t. */
  predicate FreshFor(st: State, t: Tid, s: Sv) {
    HasNumber(st, s, st.number) || t in Pending(st)
  }

  /** One reader: its slot fits its program counter, and what it holds is recent enough. A slot holds
      the newest SuperVersion or will still be scraped; a reader whose slot is still marked in use may
      only put such a SuperVersion back. */
  ghost predicate ReaderOk(st: State, t: Tid)
    requires t in st.pcs && t in st.slots
  {
    var pc, slot := st.pcs[t], st.slots[t];
    && (if InCall(pc) then !slot.Cached? && pc.began <= st.number else slot != InUse)
    && (pc.Swapped? ==> pc.ptr != InUse)
    && (pc.Locked? <==> st.mutex == Reader(t))
    && (ExtraOf(pc).Some? ==> ExtraOf(pc).value in st.extras && Carries(pc) == Some(st.extras[ExtraOf(pc).value]))
    && (slot.Cached? ==> FreshFor(st, t, slot.sv))
    && (pc.Using? && slot == InUse ==> FreshFor(st, t, pc.sv))
    && (pc.Using? ==> pc.sv in st.numbers && pc.began <= st.numbers[pc.sv])
  }

  /** The install and the mutex agree. Version numbers are unique and at most the global one, which the
      installed SuperVersion has outside an install. */
  ghost predicate GlobalOk(st: State) {
    && st.slots.Keys == st.pcs.Keys
    && (st.mutex == Installer <==> st.install != NoInstall)
    && (st.install.Scraping? ==> st.install.pending <= st.slots.Keys)
    && (forall s :: s in st.numbers ==> s in st.refs && st.numbers[s] <= st.number)
    && (forall s, s' :: s in st.numbers && s' in st.numbers && st.numbers[s] == st.numbers[s'] ==> s == s')
    && (st.install.Fresh? || st.install.Switched? || st.install.Bumped? ==> st.install.new_ !in st.numbers && st.install.new_ in st.refs)
    && (st.install.Switched? || st.install.Bumped? ==> st.current == st.install.new_)
    && (st.install.Bumped? ==> forall s :: s in st.numbers ==> st.numbers[s] < st.number)
    && (!st.install.Switched? && !st.install.Bumped? ==> HasNumber(st, st.current, st.number))
  }

  ghost predicate Readers(st: State) {
    GlobalOk(st) && forall t :: t in st.pcs ==> ReaderOk(st, t)
  }

  ghost predicate Inv(st: State) {
    Readers(st) && Counted(st) && Accounted(st)
  }

  /** One SuperVersion installed, no reader active. */
  ghost predicate Initial(st: State) {
    && st.slots.Keys == st.pcs.Keys && (forall t :: t in st.slots ==> st.slots[t] == Obsolete && st.pcs[t] == Idle)
    && st.refs == map[st.current := 1] && st.numbers == map[st.current := st.number]
    && st.cleaned == {} && st.extras == map[] && st.mutex == Free && st.install == NoInstall
  }

  lemma InitialInv(st: State)
    requires Initial(st)
    ensures Inv(st)
  {
    assert AreHolders(st, st.current, {CurrentRef});
  }

  // ------------------------------------------------------------------
  // Readers are kept
  // ------------------------------------------------------------------

  /** A step that leaves the install and the version numbers alone. */
  ghost predicate Quiet(st: State, st': State) {
    && st'.slots.Keys == st.slots.Keys && st'.pcs.Keys == st.pcs.Keys
    && st'.numbers == st.numbers && st'.number == st.number && st'.current == st.current && st'.install == st.install
    && st.refs.Keys <= st'.refs.Keys && (st'.mutex == Installer <==> st.mutex == Installer)
  }

  lemma QuietGlobal(st: State, st': State)
    requires GlobalOk(st) && Quiet(st, st')
    ensures GlobalOk(st')
  {
  }

  /** A reader that the step does not concern. */
  ghost predicate Bystander(st: State, st': State, t: Tid)
    requires st'.slots.Keys == st.slots.Keys && st'.pcs.Keys == st.pcs.Keys && t in st.pcs && t in st.slots
  {
    && st'.pcs[t] == st.pcs[t] && st'.slots[t] == st.slots[t]
    && (st'.mutex == Reader(t) <==> st.mutex == Reader(t))
    && (ExtraOf(st.pcs[t]).Some? && ExtraOf(st.pcs[t]).value in st.extras ==>
          ExtraOf(st.pcs[t]).value in st'.extras && st'.extras[ExtraOf(st.pcs[t]).value] == st.extras[ExtraOf(st.pcs[t]).value])
  }

  lemma BystanderOk(st: State, st': State, t: Tid)
    requires Quiet(st, st') && t in st.pcs && t in st.slots && ReaderOk(st, t) && Bystander(st, st', t)
    ensures ReaderOk(st', t)
  {
  }

  /** A quiet step of reader t keeps all readers if it keeps t. */
  lemma QuietReaders(st: State, st': State, t: Tid)
    requires Readers(st) && Quiet(st, st') && t in st.pcs
    requires forall t' :: t' in st.pcs && t' != t ==> Bystander(st, st', t')
    requires ReaderOk(st', t)
    ensures Readers(st')
  {
    QuietGlobal(st, st');
    forall t' | t' in st'.pcs ensures ReaderOk(st', t') {
      if t' != t {
        BystanderOk(st, st', t');
      }
    }
  }

  lemma SwapReaders(st: State, t: Tid)
    requires Readers(st) && t in st.pcs && st.pcs[t] == Idle
    ensures Readers(DoSwap(st, t))
  {
    assert ReaderOk(st, t);
    QuietReaders(st, DoSwap(st, t), t);
  }

  lemma CheckReaders(st: State, t: Tid)
    requires Readers(st) && t in st.pcs && st.pcs[t].Swapped? && st.pcs[t].ptr != InUse
    ensures Readers(DoCheck(st, t))
  {
    assert ReaderOk(st, t);
    QuietReaders(st, DoCheck(st, t), t);
  }

  lemma DropStaleReaders(st: State, t: Tid)
    requires Readers(st) && t in st.pcs && st.pcs[t].Stale?
    ensures Readers(DoDropStale(st, t))
  {
    assert ReaderOk(st, t);
    QuietReaders(st, DoDropStale(st, t), t);
  }

  lemma LockReaders(st: State, t: Tid)
    requires Readers(st) && t in st.pcs && st.pcs[t].Waiting? && st.mutex == Free
    ensures Readers(DoLock(st, t))
  {
    assert ReaderOk(st, t);
    QuietReaders(st, DoLock(st, t), t);
  }

  lemma CleanOwedReaders(st: State, t: Tid)
    requires Readers(st) && t in st.pcs && st.pcs[t].Locked? && st.pcs[t].owes.Some?
    ensures Readers(DoCleanOwed(st, t))
  {
    assert ReaderOk(st, t);
    QuietReaders(st, DoCleanOwed(st, t), t);
  }

  lemma AcquireReaders(st: State, t: Tid)
    requires Readers(st) && t in st.pcs && st.pcs[t].Locked? && st.pcs[t].owes == None
    ensures Readers(DoAcquire(st, t))
  {
    assert ReaderOk(st, t);
    QuietReaders(st, DoAcquire(st, t), t);
  }

  lemma TakeExtraReaders(st: State, t: Tid, x: nat)
    requires Readers(st) && t in st.pcs && st.pcs[t].Using? && st.pcs[t].extra == None && x !in st.extras
    ensures Readers(DoTakeExtra(st, t, x))
  {
    assert ReaderOk(st, t);
    QuietReaders(st, DoTakeExtra(st, t, x), t);
  }

  lemma ReturnReaders(st: State, t: Tid)
    requires Readers(st) && t in st.pcs && st.pcs[t].Using?
    ensures Readers(DoReturn(st, t))
  {
    assert ReaderOk(st, t);
    QuietReaders(st, DoReturn(st, t), t);
  }

  lemma DropRejectedReaders(st: State, t: Tid)
    requires Readers(st) && t in st.pcs && st.pcs[t].Rejected?
    ensures Readers(DoDropRejected(st, t))
  {
    assert ReaderOk(st, t);
    QuietReaders(st, DoDropRejected(st, t), t);
  }

  lemma PayDebtReaders(st: State, t: Tid)
    requires Readers(st) && t in st.pcs && st.pcs[t].Owing? && st.mutex == Free
    ensures Readers(DoPayDebt(st, t))
  {
    assert ReaderOk(st, t);
    QuietReaders(st, DoPayDebt(st, t), t);
  }

  lemma ReleaseExtraReaders(st: State, t: Tid, x: nat)
    requires Readers(st) && t in st.pcs && st.pcs[t] == Idle && x in st.extras && !HandingOut(st, x)
    ensures Readers(DoReleaseExtra(st, t, x))
  {
    assert ReaderOk(st, t);
    QuietReaders(st, DoReleaseExtra(st, t, x), t);
  }

  lemma ClearSlotReaders(st: State, t: Tid)
    requires Readers(st) && t in st.pcs && st.pcs[t] == Idle && st.slots[t].Cached?
    ensures Readers(DoClearSlot(st, t))
  {
    assert ReaderOk(st, t);
    QuietReaders(st, DoClearSlot(st, t), t);
  }

  lemma StartInstallReaders(st: State, s: Sv)
    requires Readers(st) && st.mutex == Free && s !in st.refs
    ensures Readers(DoStartInstall(st, s))
  {
    forall t | t in st.pcs ensures ReaderOk(DoStartInstall(st, s), t) { assert ReaderOk(st, t); }
  }

  lemma SwitchReaders(st: State)
    requires Readers(st) && st.install.Fresh?
    ensures Readers(DoSwitch(st))
  {
    forall t | t in st.pcs ensures ReaderOk(DoSwitch(st), t) { assert ReaderOk(st, t); }
  }

  /** Raising the number makes every slot pending. */
  lemma BumpReaders(st: State)
    requires Readers(st) && st.install.Switched?
    ensures Readers(DoBump(st))
  {
    forall t | t in st.pcs ensures ReaderOk(DoBump(st), t) { assert ReaderOk(st, t); }
  }

  lemma SetNumberReaders(st: State)
    requires Readers(st) && st.install.Bumped?
    ensures Readers(DoSetNumber(st))
  {
    forall t | t in st.pcs ensures ReaderOk(DoSetNumber(st), t) { assert ReaderOk(st, t); }
  }

  lemma ScrapeReaders(st: State, t: Tid)
    requires Readers(st) && st.install.Scraping? && t in st.install.pending
    ensures Readers(DoScrape(st, t))
  {
    forall t' | t' in st.pcs ensures ReaderOk(DoScrape(st, t), t') { assert ReaderOk(st, t'); }
  }

  lemma DropScrapedReaders(st: State)
    requires Readers(st) && st.install.Scraping? && st.install.pending == {} && st.install.scraped != []
    ensures Readers(DoDropScraped(st))
  {
    forall t | t in st.pcs ensures ReaderOk(DoDropScraped(st), t) { assert ReaderOk(st, t); }
  }

  lemma RetireReaders(st: State)
    requires Readers(st) && st.install.Scraping? && st.install.pending == {} && st.install.scraped == []
    ensures Readers(DoRetire(st))
  {
    forall t | t in st.pcs ensures ReaderOk(DoRetire(st), t) { assert ReaderOk(st, t); }
  }

  // ------------------------------------------------------------------
  // Counts are kept
  // ------------------------------------------------------------------

  // Which holders a change of one part of the state can touch.

  lemma PcFrame(st: State, st': State, t: Tid)
    requires st'.slots == st.slots && st'.extras == st.extras && st'.current == st.current && st'.install == st.install
    requires t in st'.pcs && st'.pcs == st.pcs[t := st'.pcs[t]]
    ensures SameExcept(st, st', {UserRef(t)})
  {
  }

  lemma SlotFrame(st: State, st': State, t: Tid)
    requires st'.pcs == st.pcs && st'.extras == st.extras && st'.current == st.current && st'.install == st.install
    requires t in st'.slots && st'.slots == st.slots[t := st'.slots[t]]
    ensures SameExcept(st, st', {SlotRef(t)})
  {
  }

  lemma CurrentFrame(st: State, st': State)
    requires st'.pcs == st.pcs && st'.extras == st.extras && st'.slots == st.slots && st'.install == st.install
    ensures SameExcept(st, st', {CurrentRef})
  {
  }

  lemma InstallFrame(st: State, st': State)
    requires st'.pcs == st.pcs && st'.extras == st.extras && st'.current == st.current && st'.slots == st.slots
    ensures forall h: Holder :: !h.FreshRef? && !h.OldRef? && !h.ScrapedRef? ==> Holds(st, h) == Holds(st', h)
  {
  }

  lemma ScrapedFrame(st: State, st': State, last: nat)
    requires st'.pcs == st.pcs && st'.extras == st.extras && st'.current == st.current && st'.slots == st.slots
    requires st.install.Scraping? && st'.install.Scraping? && st'.install.old_ == st.install.old_
    requires |st.install.scraped| == last + 1 && st'.install.scraped == st.install.scraped[..last]
    ensures SameExcept(st, st', {ScrapedRef(last)})
  {
  }

  lemma SwapCounts(st: State, t: Tid)
    requires Counted(st) && t in st.slots && t in st.pcs && st.pcs[t] == Idle
    ensures Counted(DoSwap(st, t))
  {
    var mid, st' := st.(slots := st.slots[t := InUse]), DoSwap(st, t);
    SlotFrame(st, mid, t);
    PcFrame(mid, st', t);
    if st.slots[t].Cached? {
      var s := st.slots[t].sv;
      Transfer(st, mid, st', SlotRef(t), UserRef(t), st.refs, s);
    } else {
      Same(st, mid, SlotRef(t), st.refs);
      Same(mid, st', UserRef(t), st.refs);
    }
  }

  lemma CheckCounts(st: State, t: Tid)
    requires Counted(st) && t in st.pcs && st.pcs[t].Swapped? && st.pcs[t].ptr != InUse
    ensures Counted(DoCheck(st, t))
  {
    PcFrame(st, DoCheck(st, t), t);
    Same(st, DoCheck(st, t), UserRef(t), st.refs);
  }

  lemma DropStaleCounts(st: State, t: Tid)
    requires Counted(st) && t in st.pcs && st.pcs[t].Stale?
    ensures Counted(DoDropStale(st, t))
  {
    PcFrame(st, DoDropStale(st, t), t);
    Lose(st, DoDropStale(st, t), UserRef(t), st.refs, st.pcs[t].sv);
  }

  lemma LockCounts(st: State, t: Tid)
    requires Counted(st) && t in st.pcs && st.pcs[t].Waiting?
    ensures Counted(DoLock(st, t))
  {
    PcFrame(st, DoLock(st, t), t);
    Same(st, DoLock(st, t), UserRef(t), st.refs);
  }

  lemma CleanOwedCounts(st: State, t: Tid)
    requires Counted(st) && t in st.pcs && st.pcs[t].Locked? && st.pcs[t].owes.Some?
    ensures Counted(DoCleanOwed(st, t))
  {
    PcFrame(st, DoCleanOwed(st, t), t);
    Same(st, DoCleanOwed(st, t), UserRef(t), st.refs);
  }

  lemma AcquireCounts(st: State, t: Tid)
    requires Counted(st) && t in st.pcs && st.pcs[t].Locked?
    ensures Counted(DoAcquire(st, t))
  {
    assert Holds(st, CurrentRef) == Some(st.current);
    PcFrame(st, DoAcquire(st, t), t);
    Gain(st, DoAcquire(st, t), UserRef(t), st.refs, st.current);
  }

  lemma TakeExtraCounts(st: State, t: Tid, x: nat)
    requires Counted(st) && t in st.pcs && st.pcs[t].Using? && x !in st.extras
    ensures Counted(DoTakeExtra(st, t, x))
  {
    assert Holds(st, UserRef(t)) == Some(st.pcs[t].sv);
    Gain(st, DoTakeExtra(st, t, x), ExtraRef(x), st.refs, st.pcs[t].sv);
  }

  lemma ReturnCounts(st: State, t: Tid)
    requires Counted(st) && t in st.pcs && t in st.slots && st.pcs[t].Using?
    ensures Counted(DoReturn(st, t))
  {
    var s, st' := st.pcs[t].sv, DoReturn(st, t);
    if st.slots[t] == InUse {
      var mid := Goto(st, t, Idle);
      PcFrame(st, mid, t);
      SlotFrame(mid, st', t);
      Transfer(st, mid, st', UserRef(t), SlotRef(t), st.refs, s);
    } else {
      PcFrame(st, st', t);
      Same(st, st', UserRef(t), st.refs);
    }
  }

  lemma DropRejectedCounts(st: State, t: Tid)
    requires Counted(st) && t in st.pcs && st.pcs[t].Rejected?
    ensures Counted(DoDropRejected(st, t))
  {
    PcFrame(st, DoDropRejected(st, t), t);
    Lose(st, DoDropRejected(st, t), UserRef(t), st.refs, st.pcs[t].sv);
  }

  lemma PayDebtCounts(st: State, t: Tid)
    requires Counted(st) && t in st.pcs && st.pcs[t].Owing?
    ensures Counted(DoPayDebt(st, t))
  {
    PcFrame(st, DoPayDebt(st, t), t);
    Same(st, DoPayDebt(st, t), UserRef(t), st.refs);
  }

  lemma ReleaseExtraCounts(st: State, t: Tid, x: nat)
    requires Counted(st) && t in st.pcs && st.pcs[t] == Idle && x in st.extras
    ensures Counted(DoReleaseExtra(st, t, x))
  {
    Lose(st, DoReleaseExtra(st, t, x), ExtraRef(x), st.refs, st.extras[x]);
  }

  lemma ClearSlotCounts(st: State, t: Tid)
    requires Counted(st) && t in st.slots && t in st.pcs && st.pcs[t] == Idle && st.slots[t].Cached?
    ensures Counted(DoClearSlot(st, t))
  {
    Lose(st, DoClearSlot(st, t), SlotRef(t), st.refs, st.slots[t].sv);
  }

  lemma StartInstallCounts(st: State, s: Sv)
    requires Counted(st) && st.install == NoInstall && s !in st.refs
    ensures Counted(DoStartInstall(st, s))
  {
    assert AreHolders(st, s, {});
    assert CountedAs(st, st.refs[s := 0]);
    InstallFrame(st, DoStartInstall(st, s));
    Gain(st, DoStartInstall(st, s), FreshRef, st.refs[s := 0], s);
    assert st.refs[s := 0][s := 1] == st.refs[s := 1];
  }

  /** The new SuperVersion's reference passes to the installed pointer, and that one's to the install. */
  lemma SwitchHolders(st: State, mid1: State, mid2: State, st': State, c: map<Sv, int>, old_: Sv, new_: Sv)
    requires CountedAs(st, c) && old_ != new_ && old_ in c
    requires SameExcept(st, mid1, {FreshRef}) && Holds(st, FreshRef) == Some(new_) && Holds(mid1, FreshRef) == None
    requires SameExcept(mid1, mid2, {OldRef}) && Holds(mid1, OldRef) == None && Holds(mid2, OldRef) == Some(old_)
    requires SameExcept(mid2, st', {CurrentRef}) && mid2.current == old_ && st'.current == new_
    ensures CountedAs(st', c)
  {
    LoseAndGain(st, mid1, mid2, c, old_, new_);
    Restored(c, old_, new_);
    Repoint(mid2, st', c[new_ := c[new_] - 1][old_ := c[old_] + 1], old_, new_);
  }

  lemma Restored(c: map<Sv, int>, old_: Sv, new_: Sv)
    requires old_ != new_ && old_ in c && new_ in c
    ensures var c2 := c[new_ := c[new_] - 1][old_ := c[old_] + 1]; c2[old_ := c2[old_] - 1][new_ := c2[new_] + 1] == c
  {
  }

  lemma LoseAndGain(st: State, mid1: State, mid2: State, c: map<Sv, int>, old_: Sv, new_: Sv)
    requires CountedAs(st, c) && old_ != new_ && old_ in c
    requires SameExcept(st, mid1, {FreshRef}) && Holds(st, FreshRef) == Some(new_) && Holds(mid1, FreshRef) == None
    requires SameExcept(mid1, mid2, {OldRef}) && Holds(mid1, OldRef) == None && Holds(mid2, OldRef) == Some(old_)
    ensures new_ in c && CountedAs(mid2, c[new_ := c[new_] - 1][old_ := c[old_] + 1])
  {
    Lose(st, mid1, FreshRef, c, new_);
    Gain(mid1, mid2, OldRef, c[new_ := c[new_] - 1], old_);
  }

  lemma SwitchCounts(st: State)
    requires Counted(st) && st.install.Fresh? && st.current != st.install.new_
    ensures Counted(DoSwitch(st))
  {
    var new_, old_ := st.install.new_, st.current;
    assert Holds(st, CurrentRef) == Some(old_);
    var mid1, mid2 := st.(install := NoInstall), st.(install := Switched(new_, old_));
    InstallFrame(st, mid1);
    InstallFrame(mid1, mid2);
    assert SameExcept(mid2, DoSwitch(st), {CurrentRef}) by {
      CurrentFrame(mid2, DoSwitch(st));
    }
    SwitchHolders(st, mid1, mid2, DoSwitch(st), st.refs, old_, new_);
  }

  /** The installed pointer changes. */
  lemma Repoint(st: State, st': State, c: map<Sv, int>, old_: Sv, new_: Sv)
    requires CountedAs(st, c) && SameExcept(st, st', {CurrentRef}) && st.current == old_ && st'.current == new_
    requires old_ != new_ && old_ in c && new_ in c
    ensures CountedAs(st', c[old_ := c[old_] - 1][new_ := c[new_] + 1])
  {
    var c' := c[old_ := c[old_] - 1][new_ := c[new_] + 1];
    assert Holds(st, CurrentRef) == Some(old_) && Holds(st', CurrentRef) == Some(new_);
    forall r | r in c' ensures HeldBy(st', r, c'[r]) {
      HoldersChange(st, st', CurrentRef, r, c[r]);
    }
    assert forall g :: g != CurrentRef && Holds(st', g).Some? ==> Holds(st, g) == Holds(st', g);
  }

  lemma BumpCounts(st: State)
    requires Counted(st) && st.install.Switched?
    ensures Counted(DoBump(st))
  {
    InstallFrame(st, DoBump(st));
    Same(st, DoBump(st), OldRef, st.refs);
  }

  lemma SetNumberCounts(st: State)
    requires Counted(st) && st.install.Bumped?
    ensures Counted(DoSetNumber(st))
  {
    InstallFrame(st, DoSetNumber(st));
    Same(st, DoSetNumber(st), OldRef, st.refs);
  }

  lemma ScrapeCounts(st: State, t: Tid)
    requires Counted(st) && st.install.Scraping? && t in st.slots
    ensures Counted(DoScrape(st, t))
  {
    var mid, st' := st.(slots := st.slots[t := Obsolete]), DoScrape(st, t);
    SlotFrame(st, mid, t);
    InstallFrame(mid, st');
    if st.slots[t].Cached? {
      var s := st.slots[t].sv;
      Transfer(st, mid, st', SlotRef(t), ScrapedRef(|st.install.scraped|), st.refs, s);
    } else {
      Same(st, mid, SlotRef(t), st.refs);
      Same(mid, st', OldRef, st.refs);
    }
  }

  lemma DropScrapedCounts(st: State)
    requires Counted(st) && st.install.Scraping? && st.install.scraped != []
    ensures Counted(DoDropScraped(st))
  {
    var last := |st.install.scraped| - 1;
    ScrapedFrame(st, DoDropScraped(st), last);
    Lose(st, DoDropScraped(st), ScrapedRef(last), st.refs, st.install.scraped[last]);
  }

  lemma RetireCounts(st: State)
    requires Counted(st) && st.install.Scraping? && st.install.scraped == []
    ensures Counted(DoRetire(st))
  {
    InstallFrame(st, DoRetire(st));
    Lose(st, DoRetire(st), OldRef, st.refs, st.install.old_);
  }

  // ------------------------------------------------------------------
  // Cleanup accounts are kept
  // ------------------------------------------------------------------

  /** What is held has a positive counter. */
  lemma HeldIsCounted(st: State, h: Holder, s: Sv)
    requires Counted(st) && Holds(st, h) == Some(s)
    ensures s in st.refs && st.refs[s] >= 1
  {
    var hs: set<Holder> :| AreHolders(st, s, hs) && |hs| == st.refs[s];
    assert h in hs;
  }

  /** What is held twice is counted twice. */
  lemma HeldTwice(st: State, h: Holder, g: Holder, s: Sv)
    requires Counted(st) && h != g && Holds(st, h) == Some(s) && Holds(st, g) == Some(s)
    ensures s in st.refs && st.refs[s] >= 2
  {
    HeldIsCounted(st, h, s);
    var hs: set<Holder> :| AreHolders(st, s, hs) && |hs| == st.refs[s];
    assert {h, g} <= hs;
    assert |hs| >= |{h, g}| by {
      assert |hs - {h, g}| == |hs| - |{h, g}|;
    }
  }

  /** Only reader t moves. */
  ghost predicate MovesOnly(st: State, st': State, t: Tid) {
    st'.pcs.Keys == st.pcs.Keys && t in st.pcs && forall t' :: t' in st.pcs && t' != t ==> st'.pcs[t'] == st.pcs[t']
  }

  lemma DebtsStay(st: State, st': State, t: Tid)
    requires MovesOnly(st, st', t) && Debt(st'.pcs[t]) == Debt(st.pcs[t])
    ensures forall t' :: t' in st.pcs ==> Debt(st'.pcs[t']) == Debt(st.pcs[t'])
    ensures forall s: Sv :: Owed(st, s) <==> Owed(st', s)
  {
    forall s: Sv ensures Owed(st, s) <==> Owed(st', s) {
      if Owed(st, s) {
        var u :| u in st.pcs && Debt(st.pcs[u]) == Some(s);
        assert Debt(st'.pcs[u]) == Some(s);
      }
      if Owed(st', s) {
        var u :| u in st'.pcs && Debt(st'.pcs[u]) == Some(s);
        assert Debt(st.pcs[u]) == Some(s);
      }
    }
  }

  /** Counters and debts as before, except that referenced SuperVersions may gain references. */
  lemma AccountsRef(st: State, st': State, t: Tid)
    requires Accounted(st) && MovesOnly(st, st', t) && Debt(st'.pcs[t]) == Debt(st.pcs[t])
    requires st'.cleaned == st.cleaned && st'.refs.Keys == st.refs.Keys
    requires forall s :: s in st.refs ==> st'.refs[s] == st.refs[s] || (st'.refs[s] > st.refs[s] > 0)
    ensures Accounted(st')
  {
    DebtsStay(st, st', t);
    forall u | u in st'.pcs ensures DebtOk(st', u) { assert DebtOk(st, u); }
    forall s | s in st'.refs ensures SvOk(st', s) { assert SvOk(st, s); }
  }

  /** Reader t drops a reference and owes the SuperVersion if it was the last one. */
  lemma AccountsUnref(st: State, st': State, t: Tid, s: Sv)
    requires Accounted(st) && MovesOnly(st, st', t) && Debt(st.pcs[t]) == None && s in st.refs && st.refs[s] >= 1
    requires Debt(st'.pcs[t]) == if st.refs[s] == 1 then Some(s) else None
    requires st'.cleaned == st.cleaned && st'.refs == st.refs[s := st.refs[s] - 1]
    ensures Accounted(st')
  {
    assert SvOk(st, s);
    forall u | u in st'.pcs ensures DebtOk(st', u) { assert DebtOk(st, u); }
    forall r | r in st'.refs ensures SvOk(st', r) {
      assert SvOk(st, r);
      if r != s && Owed(st, r) {
        var u :| u in st.pcs && Debt(st.pcs[u]) == Some(r);
        assert Debt(st'.pcs[u]) == Some(r);
      }
    }
  }

  /** The installer drops a reference and cleans up at once. */
  lemma AccountsUnrefLocked(st: State, st': State, s: Sv)
    requires Accounted(st) && s in st.refs && st.refs[s] >= 1 && st'.pcs == st.pcs
    requires st'.refs == st.refs[s := st.refs[s] - 1]
    requires st'.cleaned == if st.refs[s] == 1 then st.cleaned + {s} else st.cleaned
    ensures Accounted(st')
  {
    forall u | u in st'.pcs ensures DebtOk(st', u) { assert DebtOk(st, u); }
    forall r | r in st'.refs ensures SvOk(st', r) { assert SvOk(st, r); assert Owed(st, r) ==> Owed(st', r); }
  }

  /** Reader t cleans up what it owes. */
  lemma AccountsPay(st: State, st': State, t: Tid, s: Sv)
    requires Accounted(st) && MovesOnly(st, st', t) && Debt(st.pcs[t]) == Some(s) && Debt(st'.pcs[t]) == None
    requires st'.cleaned == st.cleaned + {s} && st'.refs == st.refs
    ensures Accounted(st')
  {
    assert DebtOk(st, t);
    forall u | u in st'.pcs ensures DebtOk(st', u) { assert DebtOk(st, u); }
    forall r | r in st'.refs ensures SvOk(st', r) {
      assert SvOk(st, r);
      if r != s && Owed(st, r) {
        var u :| u in st.pcs && Debt(st.pcs[u]) == Some(r);
        assert Debt(st'.pcs[u]) == Some(r);
      }
    }
  }

  lemma AccountsInstall(st: State, st': State)
    requires Accounted(st) && st'.pcs == st.pcs && st'.cleaned == st.cleaned
    requires st'.refs == st.refs || (exists s: Sv :: s !in st.refs && st'.refs == st.refs[s := 1])
    ensures Accounted(st')
  {
    forall u | u in st'.pcs ensures DebtOk(st', u) { assert DebtOk(st, u); }
    forall r | r in st'.refs ensures SvOk(st', r) {
      if r in st.refs {
        assert SvOk(st, r);
        assert Owed(st, r) ==> Owed(st', r);
      }
    }
  }

  lemma SwapAccounts(st: State, t: Tid)
    requires Accounted(st) && t in st.pcs && t in st.slots && st.pcs[t] == Idle
    ensures Accounted(DoSwap(st, t))
  {
    AccountsRef(st, DoSwap(st, t), t);
  }

  lemma CheckAccounts(st: State, t: Tid)
    requires Accounted(st) && t in st.pcs && st.pcs[t].Swapped? && st.pcs[t].ptr != InUse
    ensures Accounted(DoCheck(st, t))
  {
    AccountsRef(st, DoCheck(st, t), t);
  }

  lemma DropStaleAccounts(st: State, t: Tid)
    requires Accounted(st) && Counted(st) && t in st.pcs && st.pcs[t].Stale?
    ensures Accounted(DoDropStale(st, t))
  {
    HeldIsCounted(st, UserRef(t), st.pcs[t].sv);
    AccountsUnref(st, DoDropStale(st, t), t, st.pcs[t].sv);
  }

  lemma LockAccounts(st: State, t: Tid)
    requires Accounted(st) && t in st.pcs && st.pcs[t].Waiting? && st.mutex == Free
    ensures Accounted(DoLock(st, t))
  {
    AccountsRef(st, DoLock(st, t), t);
  }

  lemma CleanOwedAccounts(st: State, t: Tid)
    requires Accounted(st) && t in st.pcs && st.pcs[t].Locked? && st.pcs[t].owes.Some?
    ensures Accounted(DoCleanOwed(st, t))
  {
    AccountsPay(st, DoCleanOwed(st, t), t, st.pcs[t].owes.value);
  }

  lemma AcquireAccounts(st: State, t: Tid)
    requires Accounted(st) && Counted(st) && t in st.pcs && st.pcs[t].Locked? && st.pcs[t].owes == None
    ensures Accounted(DoAcquire(st, t))
  {
    HeldIsCounted(st, CurrentRef, st.current);
    AccountsRef(st, DoAcquire(st, t), t);
  }

  lemma TakeExtraAccounts(st: State, t: Tid, x: nat)
    requires Accounted(st) && Counted(st) && t in st.pcs && st.pcs[t].Using? && st.pcs[t].extra == None && x !in st.extras
    ensures Accounted(DoTakeExtra(st, t, x))
  {
    HeldIsCounted(st, UserRef(t), st.pcs[t].sv);
    AccountsRef(st, DoTakeExtra(st, t, x), t);
  }

  lemma ReturnAccounts(st: State, t: Tid)
    requires Accounted(st) && t in st.pcs && t in st.slots && st.pcs[t].Using?
    ensures Accounted(DoReturn(st, t))
  {
    AccountsRef(st, DoReturn(st, t), t);
  }

  lemma DropRejectedAccounts(st: State, t: Tid)
    requires Inv(st) && t in st.pcs && st.pcs[t].Rejected?
    ensures Accounted(DoDropRejected(st, t))
  {
    RejectedWithExtra(st, t);
    AccountsUnref(st, DoDropRejected(st, t), t, st.pcs[t].sv);
  }

  lemma PayDebtAccounts(st: State, t: Tid)
    requires Accounted(st) && t in st.pcs && st.pcs[t].Owing? && st.mutex == Free
    ensures Accounted(DoPayDebt(st, t))
  {
    AccountsPay(st, DoPayDebt(st, t), t, st.pcs[t].debt);
  }

  lemma ReleaseExtraAccounts(st: State, t: Tid, x: nat)
    requires Accounted(st) && Counted(st) && t in st.pcs && st.pcs[t] == Idle && x in st.extras
    ensures Accounted(DoReleaseExtra(st, t, x))
  {
    HeldIsCounted(st, ExtraRef(x), st.extras[x]);
    AccountsUnref(st, DoReleaseExtra(st, t, x), t, st.extras[x]);
  }

  lemma ClearSlotAccounts(st: State, t: Tid)
    requires Accounted(st) && Counted(st) && t in st.pcs && t in st.slots && st.pcs[t] == Idle && st.slots[t].Cached?
    ensures Accounted(DoClearSlot(st, t))
  {
    HeldIsCounted(st, SlotRef(t), st.slots[t].sv);
    AccountsUnref(st, DoClearSlot(st, t), t, st.slots[t].sv);
  }

  lemma DropScrapedAccounts(st: State)
    requires Accounted(st) && Counted(st) && st.install.Scraping? && st.install.scraped != []
    ensures Accounted(DoDropScraped(st))
  {
    var last := |st.install.scraped| - 1;
    HeldIsCounted(st, ScrapedRef(last), st.install.scraped[last]);
    AccountsUnrefLocked(st, DoDropScraped(st), st.install.scraped[last]);
  }

  lemma RetireAccounts(st: State)
    requires Accounted(st) && Counted(st) && st.install.Scraping?
    ensures Accounted(DoRetire(st))
  {
    HeldIsCounted(st, OldRef, st.install.old_);
    AccountsUnrefLocked(st, DoRetire(st), st.install.old_);
  }

  /** GetReferencedSuperVersion may ignore the result of its Unref: its own extra reference remains. */
  lemma RejectedWithExtra(st: State, t: Tid)
    requires Inv(st) && t in st.pcs && st.pcs[t].Rejected?
    ensures st.pcs[t].sv in st.refs && st.refs[st.pcs[t].sv] >= 1
    ensures st.pcs[t].extra.Some? ==> st.refs[st.pcs[t].sv] >= 2
  {
    assert ReaderOk(st, t);
    HeldIsCounted(st, UserRef(t), st.pcs[t].sv);
    if st.pcs[t].extra.Some? {
      HeldTwice(st, UserRef(t), ExtraRef(st.pcs[t].extra.value), st.pcs[t].sv);
    }
  }

  // ------------------------------------------------------------------
  // Every step
  // ------------------------------------------------------------------

  lemma StepKeepsReaders(st: State, step: Step)
    requires Readers(st) && Enabled(st, step)
    ensures Readers(Apply(st, step))
  {
    match step
    case Swap(t) => SwapReaders(st, t);
    case Check(t) => CheckReaders(st, t);
    case DropStale(t) => DropStaleReaders(st, t);
    case Lock(t) => LockReaders(st, t);
    case CleanOwed(t) => CleanOwedReaders(st, t);
    case Acquire(t) => AcquireReaders(st, t);
    case TakeExtra(t, x) => TakeExtraReaders(st, t, x);
    case Return(t) => ReturnReaders(st, t);
    case DropRejected(t) => DropRejectedReaders(st, t);
    case PayDebt(t) => PayDebtReaders(st, t);
    case ReleaseExtra(t, x) => ReleaseExtraReaders(st, t, x);
    case ClearSlot(t) => ClearSlotReaders(st, t);
    case StartInstall(s) => StartInstallReaders(st, s);
    case Switch => SwitchReaders(st);
    case Bump => BumpReaders(st);
    case SetNumber => SetNumberReaders(st);
    case Scrape(t) => ScrapeReaders(st, t);
    case DropScraped => DropScrapedReaders(st);
    case Retire => RetireReaders(st);
  }

  lemma StepKeepsCounts(st: State, step: Step)
    requires GlobalOk(st) && Counted(st) && Enabled(st, step)
    ensures Counted(Apply(st, step))
  {
    match step
    case Swap(t) => SwapCounts(st, t);
    case Check(t) => CheckCounts(st, t);
    case DropStale(t) => DropStaleCounts(st, t);
    case Lock(t) => LockCounts(st, t);
    case CleanOwed(t) => CleanOwedCounts(st, t);
    case Acquire(t) => AcquireCounts(st, t);
    case TakeExtra(t, x) => TakeExtraCounts(st, t, x);
    case Return(t) => ReturnCounts(st, t);
    case DropRejected(t) => DropRejectedCounts(st, t);
    case PayDebt(t) => PayDebtCounts(st, t);
    case ReleaseExtra(t, x) => ReleaseExtraCounts(st, t, x);
    case ClearSlot(t) => ClearSlotCounts(st, t);
    case StartInstall(s) => StartInstallCounts(st, s);
    case Switch => SwitchCounts(st);
    case Bump => BumpCounts(st);
    case SetNumber => SetNumberCounts(st);
    case Scrape(t) => ScrapeCounts(st, t);
    case DropScraped => DropScrapedCounts(st);
    case Retire => RetireCounts(st);
  }

  lemma StepKeepsAccounts(st: State, step: Step)
    requires Inv(st) && Enabled(st, step)
    ensures Accounted(Apply(st, step))
  {
    match step
    case Swap(t) => SwapAccounts(st, t);
    case Check(t) => CheckAccounts(st, t);
    case DropStale(t) => DropStaleAccounts(st, t);
    case Lock(t) => LockAccounts(st, t);
    case CleanOwed(t) => CleanOwedAccounts(st, t);
    case Acquire(t) => AcquireAccounts(st, t);
    case TakeExtra(t, x) => TakeExtraAccounts(st, t, x);
    case Return(t) => ReturnAccounts(st, t);
    case DropRejected(t) => DropRejectedAccounts(st, t);
    case PayDebt(t) => PayDebtAccounts(st, t);
    case ReleaseExtra(t, x) => ReleaseExtraAccounts(st, t, x);
    case ClearSlot(t) => ClearSlotAccounts(st, t);
    case StartInstall(s) => AccountsInstall(st, DoStartInstall(st, s));
    case Switch => AccountsInstall(st, DoSwitch(st));
    case Bump => AccountsInstall(st, DoBump(st));
    case SetNumber => AccountsInstall(st, DoSetNumber(st));
    case Scrape(t) => AccountsInstall(st, DoScrape(st, t));
    case DropScraped => DropScrapedAccounts(st);
    case Retire => RetireAccounts(st);
  }

  /** Every step of every interleaving keeps the invariant. */
  lemma StepKeepsInv(st: State, step: Step)
    requires Inv(st) && Enabled(st, step)
    ensures Inv(Apply(st, step))
  {
    StepKeepsReaders(st, step);
    StepKeepsCounts(st, step);
    StepKeepsAccounts(st, step);
  }

  // ------------------------------------------------------------------
  // Whole runs
  // ------------------------------------------------------------------

  /** The steps lead from st to st'. */
  ghost predicate Leads(st: State, steps: seq<Step>, st': State)
    decreases |steps|
  {
    if steps == [] then st == st'
    else Enabled(st, steps[0]) && Leads(Apply(st, steps[0]), steps[1..], st')
  }

  lemma {:induction false} RunKeepsInv(st: State, steps: seq<Step>, st': State)
    requires Inv(st) && Leads(st, steps, st')
    ensures Inv(st')
    decreases |steps|
  {
    if steps != [] {
      StepKeepsInv(st, steps[0]);
      RunKeepsInv(Apply(st, steps[0]), steps[1..], st');
    }
  }

  /** Reference counts in every reachable state: each counter is exactly the number of holders. */
  lemma RefcountsAreExact(st: State, steps: seq<Step>, st': State, s: Sv)
    requires Initial(st) && Leads(st, steps, st') && s in st'.refs
    ensures HeldBy(st', s, st'.refs[s])
    ensures st'.refs[s] > 0 ==> s !in st'.cleaned
    ensures st'.refs[s] == 0 ==> s in st'.cleaned || Owed(st', s)
  {
    InitialInv(st);
    RunKeepsInv(st, steps, st');
    assert SvOk(st', s);
  }

  /** The holder through which a step uses a SuperVersion, if it uses one. */
  function UsedThrough(st: State, step: Step): Option<Holder>
    requires Enabled(st, step)
  {
    match step
    case Check(t) => if st.pcs[t].ptr.Cached? then Some(UserRef(t)) else None
    case DropStale(t) => Some(UserRef(t))
    case Acquire(t) => Some(CurrentRef)
    case TakeExtra(t, x) => Some(UserRef(t))
    case Return(t) => Some(UserRef(t))
    case DropRejected(t) => Some(UserRef(t))
    case ReleaseExtra(t, x) => Some(ExtraRef(x))
    case ClearSlot(t) => Some(SlotRef(t))
    case DropScraped => Some(ScrapedRef(|st.install.scraped| - 1))
    case Retire => Some(OldRef)
    case _ => None
  }

  /** No step touches a SuperVersion after its release: whatever it reads, counts up or counts down is
      referenced and not cleaned up, so Unref never finds a zero counter. */
  lemma NoUseAfterRelease(st: State, step: Step)
    requires Inv(st) && Enabled(st, step) && UsedThrough(st, step).Some?
    ensures Holds(st, UsedThrough(st, step).value).Some?
    ensures var s := Holds(st, UsedThrough(st, step).value).value; RefsOf(st, s) >= 1 && s !in st.cleaned
  {
    var h := UsedThrough(st, step).value;
    var s := Holds(st, h).value;
    HeldIsCounted(st, h, s);
    assert SvOk(st, s);
  }

  /** The SuperVersion whose Cleanup a step runs, if it runs one. */
  function Cleans(st: State, step: Step): Option<Sv>
    requires Enabled(st, step)
  {
    match step
    case CleanOwed(t) => st.pcs[t].owes
    case PayDebt(t) => Some(st.pcs[t].debt)
    case DropScraped =>
      var s := st.install.scraped[|st.install.scraped| - 1];
      if RefsOf(st, s) == 1 then Some(s) else None
    case Retire => if RefsOf(st, st.install.old_) == 1 then Some(st.install.old_) else None
    case _ => None
  }

  /** Cleanup runs on a SuperVersion that is not cleaned up yet and has no reference left. */
  lemma CleanupIsFirst(st: State, step: Step)
    requires Accounted(st) && Enabled(st, step)
    ensures Cleans(st, step) == None ==> Apply(st, step).cleaned == st.cleaned
    ensures Cleans(st, step).Some? ==>
              var s := Cleans(st, step).value;
              s !in st.cleaned && Apply(st, step).cleaned == st.cleaned + {s} && RefsOf(Apply(st, step), s) == 0
  {
    match step
    case CleanOwed(t) => assert DebtOk(st, t);
    case PayDebt(t) => assert DebtOk(st, t);
    case DropScraped => assert RefsOf(st, st.install.scraped[|st.install.scraped| - 1]) == 1 ==>
        SvOk(st, st.install.scraped[|st.install.scraped| - 1]);
    case Retire => assert RefsOf(st, st.install.old_) == 1 ==> SvOk(st, st.install.old_);
    case _ =>
  }

  /** How often the steps run the Cleanup of s. */
  ghost function TimesCleaned(st: State, steps: seq<Step>, st': State, s: Sv): nat
    requires Leads(st, steps, st')
    decreases |steps|
  {
    if steps == [] then 0
    else One(Cleans(st, steps[0]) == Some(s)) + TimesCleaned(Apply(st, steps[0]), steps[1..], st', s)
  }

  lemma {:induction false} CleanupCount(st: State, steps: seq<Step>, st': State, s: Sv)
    requires Inv(st) && Leads(st, steps, st')
    ensures TimesCleaned(st, steps, st', s) + One(s in st.cleaned) == One(s in st'.cleaned)
    decreases |steps|
  {
    if steps != [] {
      StepKeepsInv(st, steps[0]);
      CleanupIsFirst(st, steps[0]);
      CleanupCount(Apply(st, steps[0]), steps[1..], st', s);
    }
  }

  /** In every run the Cleanup of a SuperVersion runs at most once, and exactly once when it is unreferenced and nobody
      is about to clean it up. */
  lemma CleanupOnce(st: State, steps: seq<Step>, st': State, s: Sv)
    requires Initial(st) && Leads(st, steps, st')
    ensures TimesCleaned(st, steps, st', s) == One(s in st'.cleaned)
    ensures s in st'.refs && st'.refs[s] == 0 && !Owed(st', s) ==> TimesCleaned(st, steps, st', s) == 1
    ensures s in st'.refs && st'.refs[s] > 0 ==> TimesCleaned(st, steps, st', s) == 0
  {
    InitialInv(st);
    CleanupCount(st, steps, st', s);
    RunKeepsInv(st, steps, st');
    assert s in st'.refs ==> SvOk(st', s);
  }

  lemma CleanupTargets(st: State, t: Tid)
    requires Inv(st) && t in st.pcs && Debt(st.pcs[t]).Some?
    ensures Debt(st.pcs[t]).value !in st.cleaned && RefsOf(st, Debt(st.pcs[t]).value) == 0
  {
    assert DebtOk(st, t);
  }

  /** The assertions about slots: a swap never finds kSVInUse, and a failed compare-and-swap always
      finds kSVObsolete. */
  lemma SlotAssertions(st: State, t: Tid)
    requires Inv(st) && t in st.pcs
    ensures st.pcs[t] == Idle ==> st.slots[t] != InUse
    ensures st.pcs[t].Using? && st.slots[t] != InUse ==> st.slots[t] == Obsolete
  {
    assert ReaderOk(st, t);
  }

  /** The destructor: with every reader gone and every slot reset, the installed SuperVersion's only
      reference is the installed pointer, and all others have been cleaned up. */
  lemma LastReference(st: State)
    requires Inv(st) && st.install == NoInstall && st.extras == map[]
    requires forall t :: t in st.pcs ==> st.pcs[t] == Idle && st.slots[t] == Obsolete
    ensures RefsOf(st, st.current) == 1
    ensures forall s :: s in st.refs && s != st.current ==> s in st.cleaned
  {
    HeldIsCounted(st, CurrentRef, st.current);
    forall s | s in st.refs
      ensures st.refs[s] == One(s == st.current)
    {
      var hs: set<Holder> :| AreHolders(st, s, hs) && |hs| == st.refs[s];
      OnlyCurrent(st, s, hs);
    }
    forall s | s in st.refs && s != st.current ensures s in st.cleaned {
      assert SvOk(st, s);
    }
  }

  lemma OnlyCurrent(st: State, s: Sv, hs: set<Holder>)
    requires AreHolders(st, s, hs) && st.slots.Keys == st.pcs.Keys && st.install == NoInstall && st.extras == map[]
    requires forall t :: t in st.pcs ==> st.pcs[t] == Idle && st.slots[t] == Obsolete
    ensures |hs| == One(s == st.current)
  {
    forall h | h in hs ensures h == CurrentRef && s == st.current {
      assert Holds(st, h) == Some(s);
    }
    assert CurrentRef in hs <==> s == st.current;
    if s == st.current {
      assert hs == {CurrentRef};
    } else {
      assert hs == {};
    }
  }

  // ------------------------------------------------------------------
  // Freshness
  // ------------------------------------------------------------------

  /** A call obtains its SuperVersion, from its slot or under the mutex, at an instant when that
      SuperVersion has the global number. */
  lemma ObtainedIsCurrent(st: State, t: Tid)
    requires Inv(st) && t in st.pcs
    ensures Enabled(st, Check(t)) && DoCheck(st, t).pcs[t].Using? ==>
              HasNumber(st, DoCheck(st, t).pcs[t].sv, st.number) && DoCheck(st, t).pcs[t].began == st.pcs[t].began
    ensures Enabled(st, Acquire(t)) ==>
              DoAcquire(st, t).pcs[t].Using? && HasNumber(st, DoAcquire(st, t).pcs[t].sv, st.number) &&
              DoAcquire(st, t).pcs[t].began == st.pcs[t].began
  {
    assert ReaderOk(st, t);
  }

  /** No other step puts a reader into use. */
  lemma OnlyCheckAndAcquireObtain(st: State, step: Step, t: Tid)
    requires Enabled(st, step) && t in st.pcs && t in Apply(st, step).pcs
    requires !st.pcs[t].Using? && Apply(st, step).pcs[t].Using?
    ensures step == Check(t) || step == Acquire(t)
  {
  }

  /** A call never uses a SuperVersion that was superseded before the call began. */
  lemma NeverSupersededBeforeCall(st: State, t: Tid)
    requires Inv(st) && t in st.pcs && st.pcs[t].Using?
    ensures st.pcs[t].sv in st.numbers && st.pcs[t].began <= st.numbers[st.pcs[t].sv]
  {
    assert ReaderOk(st, t);
  }

  /** Putting a SuperVersion back leaves the newest one, or one that a scrape in progress collects. */
  lemma ReturnLeavesFresh(st: State, t: Tid)
    requires Inv(st) && t in st.pcs && st.pcs[t].Using? && st.slots[t] == InUse
    ensures var st' := DoReturn(st, t); st'.slots[t] == Cached(st.pcs[t].sv) && FreshFor(st', t, st.pcs[t].sv)
  {
    assert ReaderOk(st, t);
  }

  /** Once no install is running, every cached SuperVersion is the installed one. */
  lemma CachesAreCurrent(st: State, t: Tid)
    requires Inv(st) && st.install == NoInstall && t in st.slots && st.slots[t].Cached?
    ensures st.slots[t].sv == st.current
  {
    assert ReaderOk(st, t);
  }

  /** The point of the cache: while no install is running, a call that finds a cached SuperVersion gets the installed one
      without the mutex and without touching a counter, and returning it undisturbed leaves everything as it was. */
  lemma UndisturbedCall(st: State, t: Tid)
    requires Inv(st) && st.install == NoInstall && t in st.pcs && t in st.slots && st.slots[t].Cached? && st.pcs[t] == Idle
    ensures var taken := DoCheck(DoSwap(st, t), t);
            && taken.pcs[t] == Using(st.current, st.number, None) && taken.mutex == st.mutex && taken.refs == st.refs
            && DoReturn(taken, t) == st
  {
    CachesAreCurrent(st, t);
    assert ReaderOk(st, t);
    var taken := DoCheck(DoSwap(st, t), t);
    assert taken.slots[t := Cached(st.current)] == st.slots;
    assert taken.pcs[t := Idle] == st.pcs;
  }

  /** A call that finds none gets the installed one under the mutex. */
  lemma SlowCall(st: State, t: Tid)
    requires t in st.pcs && t in st.slots && st.slots[t] == Obsolete && st.pcs[t] == Idle && st.mutex == Free
    ensures var st' := DoAcquire(DoLock(DoCheck(DoSwap(st, t), t), t), t);
            st'.pcs[t] == Using(st.current, st.number, None) && st'.mutex == Free && RefsOf(st', st.current) == RefsOf(st, st.current) + 1
  {
  }

  /** A reference handed out can be released as soon as the call that hands it out has returned. */
  lemma ExtraCanBeReleased(st: State, t: Tid, x: nat)
    requires t in st.pcs && st.pcs[t] == Idle && x in st.extras
    requires forall u :: u in st.pcs ==>
               (st.pcs[u].Using? ==> st.pcs[u].extra != Some(x)) && (st.pcs[u].Rejected? ==> st.pcs[u].extra != Some(x))
    ensures Enabled(st, ReleaseExtra(t, x)) && x !in Apply(st, ReleaseExtra(t, x)).extras
    ensures RefsOf(Apply(st, ReleaseExtra(t, x)), st.extras[x]) == RefsOf(st, st.extras[x]) - 1
  {
  }

  lemma NumberStep(st: State, step: Step)
    requires Enabled(st, step)
    ensures Apply(st, step).number == if step.Bump? then st.number + 1 else st.number
  {
  }

  /** The global number never falls. */
  lemma {:induction false} NumberGrows(st: State, steps: seq<Step>, st': State)
    requires Leads(st, steps, st')
    ensures st.number <= st'.number
    decreases |steps|
  {
    if steps != [] {
      NumberStep(st, steps[0]);
      NumberGrows(Apply(st, steps[0]), steps[1..], st');
    }
  }
}
