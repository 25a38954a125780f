/** Runtime feature flags and the ring buffer of their changes (src/config/feature-flag-audit.service.ts). */
module FlagAudit {
  import opened Prelude

  const MAX_HISTORY := 100

  datatype Actor = Actor(id: string, email: string)

  datatype Entry = Entry(id: nat, flagKey: string, actor: string, actorEmail: string, oldValue: bool, newValue: bool)

  type Flags = map<string, bool>

  /** `state.get(key) ?? false` */
  function ValueOf(flags: Flags, key: string): bool { key in flags && flags[key] }

  datatype Change = Change(key: string, newValue: bool, actor: Actor)

  function EntryFor(flags: Flags, c: Change, id: nat): Entry {
    Entry(id, c.key, c.actor.id, c.actor.email, ValueOf(flags, c.key), c.newValue)
  }

  function Prepended(history: seq<Entry>, e: Entry): seq<Entry> {
    if |history| + 1 > MAX_HISTORY then [e] + history[..|history| - 1] else [e] + history
  }

  class FeatureFlagAuditService {
    var state: Flags
    var history: seq<Entry>
    var nextId: nat

    constructor (initial: Flags)
      ensures state == initial && history == [] && nextId == 1
    {
      state := initial;
      history := [];
      nextId := 1;
    }

    method SetFlag(key: string, newValue: bool, actor: Actor) returns (entry: Entry)
      requires |history| <= MAX_HISTORY
      modifies this
      ensures entry == EntryFor(old(state), Change(key, newValue, actor), old(nextId))
      ensures state == old(state)[key := newValue]
      ensures nextId == old(nextId) + 1
      ensures history == Prepended(old(history), entry) && |history| <= MAX_HISTORY
    {
      var oldValue := key in state && state[key];
      state := state[key := newValue];
      entry := Entry(nextId, key, actor.id, actor.email, oldValue, newValue);
      nextId := nextId + 1;
      PrependToHistory(entry);
    }

    method PrependToHistory(entry: Entry)
      requires |history| <= MAX_HISTORY
      modifies this`history
      ensures history == Prepended(old(history), entry) && |history| <= MAX_HISTORY
    {
      history := [entry] + history;
      if |history| > MAX_HISTORY {
        history := history[..|history| - 1];
      }
    }

    method GetAuditHistory() returns (h: seq<Entry>)
      ensures h == history
    {
      h := history;
    }
  }

  // ---- Whole runs --------------------------------------------------------

  datatype State = State(flags: Flags, history: seq<Entry>, nextId: nat)

  function SetFlag(s: State, c: Change): State {
    State(s.flags[c.key := c.newValue], Prepended(s.history, EntryFor(s.flags, c, s.nextId)), s.nextId + 1)
  }

  function Run(initial: Flags, cs: seq<Change>): State {
    if cs == [] then State(initial, [], 1) else SetFlag(Run(initial, cs[..|cs| - 1]), cs[|cs| - 1])
  }

  /** A service after one more call is the run with one more change. */
  method ServiceRuns(service: FeatureFlagAuditService, initial: Flags, ghost cs: seq<Change>, c: Change)
    requires State(service.state, service.history, service.nextId) == Run(initial, cs)
    modifies service
    ensures State(service.state, service.history, service.nextId) == Run(initial, cs + [c])
  {
    BufferIsNewestFirst(initial, cs);
    var entry := service.SetFlag(c.key, c.newValue, c.actor);
    assert (cs + [c])[..|cs|] == cs;
  }

  /** A change sets its flag alone; its entry tells who made it, and the value before, false for a missing flag. */
  lemma EntryExactly(s: State, c: Change)
    requires |s.history| <= MAX_HISTORY
    ensures var next := SetFlag(s, c);
            var e := next.history[0];
            next.flags == s.flags[c.key := c.newValue] && e.id == s.nextId && e.flagKey == c.key &&
            e.newValue == c.newValue && e.actor == c.actor.id && e.actorEmail == c.actor.email &&
            (c.key in s.flags ==> e.oldValue == s.flags[c.key]) && (c.key !in s.flags ==> !e.oldValue)
  {}

  /** Setting a flag to the value it reads already still takes an id and an entry, in front of the others. */
  lemma RepeatIsRecorded(s: State, key: string, actor: Actor)
    requires |s.history| <= MAX_HISTORY
    ensures var next := SetFlag(s, Change(key, ValueOf(s.flags, key), actor));
            (forall k :: ValueOf(next.flags, k) == ValueOf(s.flags, k)) &&
            next.nextId == s.nextId + 1 && next.history[0].id == s.nextId &&
            next.history[0].oldValue == next.history[0].newValue &&
            next.history[1..] == s.history[..Min(|s.history|, MAX_HISTORY - 1)]
  {}

  /** Position of the last of the first `n` changes to `key`. */
  function LastChange(cs: seq<Change>, n: nat, key: string): (at: Option<nat>)
    requires n <= |cs|
    ensures at.Some? ==> at.value < n && cs[at.value].key == key &&
                         forall j :: at.value < j < n ==> cs[j].key != key
    ensures at.None? ==> forall j :: 0 <= j < n ==> cs[j].key != key
  {
    if n == 0 then None else if cs[n - 1].key == key then Some(n - 1) else LastChange(cs, n - 1, key)
  }

  /** What a key reads after the first `n` changes: the last of them to it, else its initial value. */
  function Reading(initial: Flags, cs: seq<Change>, n: nat, key: string): bool
    requires n <= |cs|
  {
    var at := LastChange(cs, n, key);
    if at.Some? then cs[at.value].newValue else ValueOf(initial, key)
  }

  /** The entry of the `n`-th change, counting from 0. */
  function LogEntry(initial: Flags, cs: seq<Change>, n: nat): Entry
    requires n < |cs|
  {
    Entry(n + 1, cs[n].key, cs[n].actor.id, cs[n].actor.email, Reading(initial, cs, n, cs[n].key), cs[n].newValue)
  }

  lemma {:induction false} LastChangeLocal(cs: seq<Change>, n: nat, m: nat, key: string)
    requires n <= m <= |cs|
    ensures LastChange(cs[..m], n, key) == LastChange(cs, n, key)
  {
    if n > 0 { LastChangeLocal(cs, n - 1, m, key); }
  }

  /** The flags are the initial ones with every change replayed. */
  lemma {:induction false} FlagsAreReplayed(initial: Flags, cs: seq<Change>, key: string)
    ensures ValueOf(Run(initial, cs).flags, key) == Reading(initial, cs, |cs|, key)
    ensures key in Run(initial, cs).flags <==> key in initial || LastChange(cs, |cs|, key).Some?
  {
    if cs != [] {
      var n := |cs| - 1;
      FlagsAreReplayed(initial, cs[..n], key);
      LastChangeLocal(cs, n, n, key);
    }
  }

  /** The entries of the last `n` changes, newest first. */
  function Newest(initial: Flags, cs: seq<Change>, n: nat): seq<Entry>
    requires n <= |cs|
  {
    seq(n, i requires 0 <= i < n => LogEntry(initial, cs, |cs| - 1 - i))
  }

  function Kept(n: nat): nat { Min(MAX_HISTORY, n) }

  lemma LogEntryLocal(initial: Flags, cs: seq<Change>, n: nat, m: nat)
    requires n < m <= |cs|
    ensures LogEntry(initial, cs[..m], n) == LogEntry(initial, cs, n)
  {
    LastChangeLocal(cs, n, m, cs[n].key);
  }

  /**
   * In every run the buffer is the last hundred changes, newest first, each with its number, its actor
   * and the value it replaced.
   */
  lemma {:induction false} BufferIsNewestFirst(initial: Flags, cs: seq<Change>)
    ensures Run(initial, cs).history == Newest(initial, cs, Kept(|cs|))
    ensures Run(initial, cs).nextId == |cs| + 1
  {
    if cs != [] {
      var n := |cs| - 1;
      BufferIsNewestFirst(initial, cs[..n]);
      NewestEntry(initial, cs);
      PushKeepsNewest(initial, cs);
    }
  }

  lemma NewestEntry(initial: Flags, cs: seq<Change>)
    requires cs != []
    ensures EntryFor(Run(initial, cs[..|cs| - 1]).flags, cs[|cs| - 1], |cs|) == LogEntry(initial, cs, |cs| - 1)
  {
    var n := |cs| - 1;
    FlagsAreReplayed(initial, cs[..n], cs[n].key);
    LastChangeLocal(cs, n, n, cs[n].key);
  }

  lemma PushKeepsNewest(initial: Flags, cs: seq<Change>)
    requires cs != []
    ensures var n := |cs| - 1;
            Prepended(Newest(initial, cs[..n], Kept(n)), LogEntry(initial, cs, n)) == Newest(initial, cs, Kept(n + 1))
  {
    var n := |cs| - 1;
    var before := Newest(initial, cs[..n], Kept(n));
    var after := Newest(initial, cs, Kept(n + 1));
    forall i | 1 <= i < |after| ensures after[i] == before[i - 1] { LogEntryLocal(initial, cs, n - i, n); }
  }

  lemma BufferedAt(initial: Flags, cs: seq<Change>, i: nat)
    requires i < |Run(initial, cs).history|
    ensures i < |cs| && Run(initial, cs).history[i] == LogEntry(initial, cs, |cs| - 1 - i)
  {
    BufferIsNewestFirst(initial, cs);
  }

  /** Two buffered entries for one key with none between: the newer starts from where the older ended. */
  lemma EntriesChain(initial: Flags, cs: seq<Change>, i: nat, j: nat)
    requires i < j < |Run(initial, cs).history|
    requires var h := Run(initial, cs).history;
             h[i].flagKey == h[j].flagKey && forall k :: i < k < j ==> h[k].flagKey != h[i].flagKey
    ensures var h := Run(initial, cs).history;
            h[i].oldValue == h[j].newValue && h[i].id == h[j].id + (j - i)
  {
    var h, n := Run(initial, cs).history, |cs|;
    BufferedAt(initial, cs, i);
    BufferedAt(initial, cs, j);
    forall k: nat | n - 1 - j < k < n - 1 - i ensures cs[k].key != cs[n - 1 - i].key {
      BufferedAt(initial, cs, n - 1 - k);
    }
    LastChangeIs(cs, n - 1 - i, n - 1 - j, cs[n - 1 - i].key);
  }

  lemma {:induction false} LastChangeIs(cs: seq<Change>, n: nat, at: nat, key: string)
    requires at < n <= |cs| && cs[at].key == key && forall k :: at < k < n ==> cs[k].key != key
    ensures LastChange(cs, n, key) == Some(at)
  {
    if n - 1 > at { LastChangeIs(cs, n - 1, at, key); }
  }

  // ---- Walking the buffer backwards --------------------------------------

  /** Undo the newest entry, then the one before it, and so on. */
  function Rewind(flags: Flags, history: seq<Entry>): Flags
    decreases history
  {
    if history == [] then flags else Rewind(flags[history[0].flagKey := history[0].oldValue], history[1..])
  }

  lemma {:induction false} RewindLast(flags: Flags, history: seq<Entry>, e: Entry)
    ensures Rewind(flags, history + [e]) == Rewind(flags, history)[e.flagKey := e.oldValue]
    decreases |history|
  {
    if history == [] {
      assert [e][1..] == [];
    } else {
      assert (history + [e])[1..] == history[1..] + [e];
      RewindLast(flags[history[0].flagKey := history[0].oldValue], history[1..], e);
    }
  }

  /** The last `n` changes undone, newest first. */
  function Undone(initial: Flags, cs: seq<Change>, n: nat): Flags
    requires n <= |cs|
  {
    Rewind(Run(initial, cs).flags, Newest(initial, cs, n))
  }

  lemma UndoneStep(initial: Flags, cs: seq<Change>, n: nat)
    requires 0 < n <= |cs|
    ensures var e := LogEntry(initial, cs, |cs| - n);
            Undone(initial, cs, n) == Undone(initial, cs, n - 1)[e.flagKey := e.oldValue]
  {
    assert Newest(initial, cs, n) == Newest(initial, cs, n - 1) + [LogEntry(initial, cs, |cs| - n)];
    RewindLast(Run(initial, cs).flags, Newest(initial, cs, n - 1), LogEntry(initial, cs, |cs| - n));
  }

  /** With the last `n` changes undone the flag reads as it did before them, and is there if it is now. */
  predicate ReadsAsBefore(initial: Flags, cs: seq<Change>, n: nat, key: string)
    requires n <= |cs|
  {
    ValueOf(Undone(initial, cs, n), key) == Reading(initial, cs, |cs| - n, key) &&
    (key in Undone(initial, cs, n) <==> key in Run(initial, cs).flags)
  }

  lemma {:induction false} AllReadAsBefore(initial: Flags, cs: seq<Change>, n: nat, key: string)
    requires n <= |cs|
    ensures ReadsAsBefore(initial, cs, n, key)
  {
    if n == 0 {
      NothingUndone(initial, cs, key);
    } else {
      AllReadAsBefore(initial, cs, n - 1, key);
      RewindsOne(initial, cs, n, key);
    }
  }

  lemma NothingUndone(initial: Flags, cs: seq<Change>, key: string)
    ensures ReadsAsBefore(initial, cs, 0, key)
  {
    assert Newest(initial, cs, 0) == [];
    FlagsAreReplayed(initial, cs, key);
  }

  lemma RewindsOne(initial: Flags, cs: seq<Change>, n: nat, key: string)
    requires 0 < n <= |cs| && ReadsAsBefore(initial, cs, n - 1, key)
    ensures ReadsAsBefore(initial, cs, n, key)
  {
    UndoneStep(initial, cs, n);
    KeyIsThere(initial, cs, |cs| - n);
  }

  /** Whatever the keys, every flag reads as it did before the oldest change undone. */
  lemma RewindReads(initial: Flags, cs: seq<Change>, n: nat, key: string)
    requires n <= |cs|
    ensures ValueOf(Undone(initial, cs, n), key) == Reading(initial, cs, |cs| - n, key)
    ensures key in Undone(initial, cs, n) <==> key in Run(initial, cs).flags
  {
    AllReadAsBefore(initial, cs, n, key);
  }

  lemma KeyIsThere(initial: Flags, cs: seq<Change>, j: nat)
    requires j < |cs|
    ensures cs[j].key in Run(initial, cs).flags
  {
    FlagsAreReplayed(initial, cs, cs[j].key);
  }

  /** The flags just before the last `n` changes. */
  function Before(initial: Flags, cs: seq<Change>, n: nat): Flags
    requires n <= |cs|
  {
    Run(initial, cs[..|cs| - n]).flags
  }

  /** The last `n` changes touch only flags that were there before them. */
  predicate TouchesKnown(initial: Flags, cs: seq<Change>, n: nat)
    requires n <= |cs|
  {
    forall j :: |cs| - n <= j < |cs| ==> cs[j].key in Before(initial, cs, n)
  }

  lemma BeforeReads(initial: Flags, cs: seq<Change>, n: nat, key: string)
    requires n <= |cs|
    ensures ValueOf(Before(initial, cs, n), key) == Reading(initial, cs, |cs| - n, key)
    ensures key in Before(initial, cs, n) <==> key in initial || LastChange(cs, |cs| - n, key).Some?
  {
    FlagsAreReplayed(initial, cs[..|cs| - n], key);
    LastChangeLocal(cs, |cs| - n, |cs| - n, key);
  }

  /** No flag is ever removed, and one that appears was touched by one of the last changes. */
  lemma DomainGrows(initial: Flags, cs: seq<Change>, n: nat, key: string)
    requires n <= |cs|
    ensures key in Before(initial, cs, n) ==> key in Run(initial, cs).flags
    ensures key in Run(initial, cs).flags && key !in Before(initial, cs, n) ==>
              exists j :: |cs| - n <= j < |cs| && cs[j].key == key
  {
    FlagsAreReplayed(initial, cs, key);
    BeforeReads(initial, cs, n, key);
    var earlier, at := LastChange(cs, |cs| - n, key), LastChange(cs, |cs|, key);
    assert earlier.Some? ==> cs[earlier.value].key == key;
    assert at.Some? ==> cs[at.value].key == key;
  }

  lemma UndoneAgrees(initial: Flags, cs: seq<Change>, n: nat, key: string)
    requires n <= |cs| && TouchesKnown(initial, cs, n)
    ensures key in Undone(initial, cs, n) <==> key in Before(initial, cs, n)
    ensures ValueOf(Undone(initial, cs, n), key) == ValueOf(Before(initial, cs, n), key)
  {
    RewindReads(initial, cs, n, key);
    BeforeReads(initial, cs, n, key);
    DomainGrows(initial, cs, n, key);
  }

  lemma SameFlags(a: Flags, b: Flags)
    requires forall key: string :: (key in a <==> key in b) && ValueOf(a, key) == ValueOf(b, key)
    ensures a == b
  {
    assert forall key :: key in a ==> a[key] == ValueOf(a, key);
    assert forall key :: key in b ==> b[key] == ValueOf(b, key);
  }

  /**
   * Walking back over the last `n` entries rebuilds the flags before them exactly when every flag they
   * touch existed by then; one that did not comes back as false instead of missing.
   */
  lemma RewindRestoresExactly(initial: Flags, cs: seq<Change>, n: nat)
    requires n <= |cs|
    ensures Undone(initial, cs, n) == Before(initial, cs, n) <==> TouchesKnown(initial, cs, n)
  {
    if TouchesKnown(initial, cs, n) {
      forall key: string
        ensures key in Undone(initial, cs, n) <==> key in Before(initial, cs, n)
        ensures ValueOf(Undone(initial, cs, n), key) == ValueOf(Before(initial, cs, n), key)
      {
        UndoneAgrees(initial, cs, n, key);
      }
      SameFlags(Undone(initial, cs, n), Before(initial, cs, n));
    } else {
      var j :| |cs| - n <= j < |cs| && cs[j].key !in Before(initial, cs, n);
      RewindReads(initial, cs, n, cs[j].key);
      KeyIsThere(initial, cs, j);
    }
  }

  /** The whole buffer, walked back from the current flags. */
  lemma BufferRewindsExactly(initial: Flags, cs: seq<Change>)
    ensures Rewind(Run(initial, cs).flags, Run(initial, cs).history) == Before(initial, cs, Kept(|cs|))
       <==> TouchesKnown(initial, cs, Kept(|cs|))
    ensures (forall j :: 0 <= j < |cs| ==> cs[j].key in initial) ==> TouchesKnown(initial, cs, Kept(|cs|))
  {
    BufferIsNewestFirst(initial, cs);
    RewindRestoresExactly(initial, cs, Kept(|cs|));
    forall j | 0 <= j < |cs| && cs[j].key in initial ensures cs[j].key in Before(initial, cs, Kept(|cs|)) {
      BeforeReads(initial, cs, Kept(|cs|), cs[j].key);
    }
  }
}
