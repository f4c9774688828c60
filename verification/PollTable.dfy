/**
 * The poll table (class Poll, removal by swapping with the last entry) and the
 * descending sweep of HttpdSendStream::sendPackets over it, while other threads may
 * append entries.
 */
module PollTable {
  import opened Common

  const POLLOUT: bv16 := 0x4
  const POLLERR: bv16 := 0x8
  const POLLHUP: bv16 := 0x10
  const POLLNVAL: bv16 := 0x20

  const PIECE_SIZE: nat := 1024

  datatype PollFd = PollFd(fd: int, events: bv16, revents: bv16)

  /** What memset(-1) leaves. */
  const UNUSED := PollFd(-1, 0xFFFF, 0xFFFF)

  /** The object of an entry, as the number of the object; None is NULL. */
  type Ref = Option<nat>

  datatype Entry = Entry(poll: PollFd, obj: Ref)

  // ------------------------------------------------------------ specification

  /** The last entry takes the place of the removed one. */
  function RemoveAt(s: seq<Entry>, k: nat): (r: seq<Entry>)
    requires k < |s|
    ensures |r| == |s| - 1 && r[..k] == s[..k]
  {
    s[k := s[|s| - 1]][..|s| - 1]
  }

  function ResetAt(s: seq<Entry>, k: nat): (r: seq<Entry>)
    requires k < |s|
    ensures |r| == |s| && r[..k] == s[..k]
  {
    s[k := s[k].(poll := s[k].poll.(revents := 0))]
  }

  /** getPollErr. */
  function PollErr(revents: bv16): (e: bv16) {
    if revents & POLLERR != 0 then POLLERR
    else if revents & POLLNVAL != 0 then POLLNVAL
    else if revents & POLLHUP != 0 then POLLHUP
    else 0
  }

  /**
   * It reports an event exactly when one of the three is set, the event is one of them that
   * is set, and a hang-up is reported only when it is the only one.
   */
  lemma {:induction false} PollErrMeans(revents: bv16)
    ensures PollErr(revents) != 0 <==> revents & (POLLERR | POLLNVAL | POLLHUP) != 0
    ensures PollErr(revents) in {0, POLLERR, POLLNVAL, POLLHUP} && PollErr(revents) & revents == PollErr(revents)
    ensures PollErr(revents) == POLLHUP <==> revents & (POLLERR | POLLNVAL | POLLHUP) == POLLHUP
  {}

  /** How the client's sendStream ended. */
  datatype Answer = Progress | Again | Failure | Complete

  /** An entry leaves the table on a poll error, or when it could send and completed or failed. */
  predicate Leaves(e: Entry, a: Answer) {
    PollErr(e.poll.revents) != 0 || (e.poll.revents & POLLOUT != 0 && (a == Complete || a == Failure))
  }

  /** The table after what other threads append and one turn. */
  function AfterRound(s: seq<Entry>, k: nat, answer: Answer, new': seq<Entry>): (r: seq<Entry>)
    requires k < |s|
    ensures |r| >= k
  {
    var s1 := s + new';
    if Leaves(s1[k], answer) then RemoveAt(s1, k) else ResetAt(s1, k)
  }

  /**
   * One run of the loop from position k - 1 down to `until`; before the turn at position
   * i other threads append arrivals[i].
   */
  function Sweep(s: seq<Entry>, k: nat, until: nat, answers: seq<Answer>, arrivals: seq<seq<Entry>>): (r: seq<Entry>)
    requires until <= k <= |s| && k <= |answers| && k <= |arrivals|
    decreases k
  {
    if k == until then s
    else Sweep(AfterRound(s, k - 1, answers[k - 1], arrivals[k - 1]), k - 1, until, answers, arrivals)
  }

  /** The entries the turns look at, in that order. */
  function Examined(s: seq<Entry>, k: nat, until: nat, answers: seq<Answer>, arrivals: seq<seq<Entry>>): (r: seq<Entry>)
    requires until <= k <= |s| && k <= |answers| && k <= |arrivals|
    decreases k
  {
    if k == until then []
    else
      [(s + arrivals[k - 1])[k - 1]]
      + Examined(AfterRound(s, k - 1, answers[k - 1], arrivals[k - 1]), k - 1, until, answers, arrivals)
  }

  function Backwards(s: seq<Entry>): (r: seq<Entry>) {
    if s == [] then [] else [s[|s| - 1]] + Backwards(s[..|s| - 1])
  }

  /** Each entry that was there at the start is looked at exactly once, from the last to the first, and no other one. */
  lemma {:induction false} ExaminedIsInitial(s: seq<Entry>, k: nat, until: nat, answers: seq<Answer>, arrivals: seq<seq<Entry>>)
    requires until <= k <= |s| && k <= |answers| && k <= |arrivals|
    ensures Examined(s, k, until, answers, arrivals) == Backwards(s[until..k])
    decreases k
  {
    hide Leaves, RemoveAt, ResetAt;
    if k > until {
      var s1 := s + arrivals[k - 1];
      var s2 := if Leaves(s1[k - 1], answers[k - 1]) then RemoveAt(s1, k - 1) else ResetAt(s1, k - 1);
      ExaminedIsInitial(s2, k - 1, until, answers, arrivals);
      assert s2[until..k - 1] == s2[..k - 1][until..] && s1[..k - 1][until..] == s[until..k - 1];
      assert s[until..k][..k - until - 1] == s[until..k - 1] && s[until..k][k - until - 1] == s[k - 1];
    }
  }

  /** The (fd, object) pairs of some entries. */
  function Pairs(s: seq<Entry>): (p: seq<(int, Ref)>)
    ensures |p| == |s|
  {
    seq(|s|, i requires 0 <= i < |s| => (s[i].poll.fd, s[i].obj))
  }

  ghost function Bag(s: seq<Entry>): (m: multiset<(int, Ref)>) {
    multiset(Pairs(s))
  }

  /** No error event, and no completed or failed send: then an entry stays. */
  predicate Stays(e: Entry, a: Answer) {
    && e.poll.revents & (POLLERR | POLLNVAL | POLLHUP) == 0
    && (e.poll.revents & POLLOUT == 0 || a == Progress || a == Again)
  }

  lemma {:induction false} StaysOrLeaves(e: Entry, a: Answer)
    ensures Stays(e, a) <==> !Leaves(e, a)
  {
    PollErrMeans(e.poll.revents);
  }

  /** Of the entries from `until` to k those that stay. */
  function Survivors(s: seq<Entry>, k: nat, until: nat, answers: seq<Answer>): (r: seq<Entry>)
    requires until <= k <= |s| && k <= |answers|
    decreases k
  {
    if k == until then [] else Survivors(s, k - 1, until, answers) + if Stays(s[k - 1], answers[k - 1]) then [s[k - 1]] else []
  }

  function Arrived(arrivals: seq<seq<Entry>>, k: nat, until: nat): (r: seq<Entry>)
    requires until <= k <= |arrivals|
    decreases k
  {
    if k == until then [] else Arrived(arrivals, k - 1, until) + arrivals[k - 1]
  }

  lemma {:induction false} BagAppend(a: seq<Entry>, b: seq<Entry>)
    ensures Bag(a + b) == Bag(a) + Bag(b)
  {
    assert Pairs(a + b) == Pairs(a) + Pairs(b);
  }

  lemma {:induction false} BagRemove(s: seq<Entry>, k: nat)
    requires k < |s|
    ensures Bag(RemoveAt(s, k)[k..]) == Bag(s[k + 1..])
  {
    var n := |s| - 1;
    if k < n {
      assert RemoveAt(s, k)[k..] == [s[n]] + s[k + 1..n];
      assert s[k + 1..] == s[k + 1..n] + [s[n]];
      BagAppend([s[n]], s[k + 1..n]);
      BagAppend(s[k + 1..n], [s[n]]);
    }
  }

  lemma {:induction false} BagReset(s: seq<Entry>, k: nat)
    requires k < |s|
    ensures Bag(ResetAt(s, k)[k..]) == Bag([s[k]]) + Bag(s[k + 1..])
  {
    assert Pairs(ResetAt(s, k)[k..]) == Pairs([s[k]] + s[k + 1..]);
    BagAppend([s[k]], s[k + 1..]);
  }

  lemma {:induction false} SurvivorsOfPrefix(s: seq<Entry>, t: seq<Entry>, k: nat, until: nat, answers: seq<Answer>)
    requires until <= k <= |s| && k <= |t| && k <= |answers| && s[..k] == t[..k]
    ensures Survivors(s, k, until, answers) == Survivors(t, k, until, answers)
    decreases k
  {
    hide Stays;
    if k > until {
      assert s[k - 1] == s[..k][k - 1] == t[..k][k - 1];
      assert s[..k - 1] == s[..k][..k - 1] && t[..k - 1] == t[..k][..k - 1];
      SurvivorsOfPrefix(s, t, k - 1, until, answers);
    }
  }

  /**
   * After the sweep the table holds exactly the entries it did not get to, the examined
   * ones that neither completed nor failed, and those that were appended meanwhile.
   */
  lemma {:induction false} SweepBalance(s: seq<Entry>, k: nat, until: nat, answers: seq<Answer>, arrivals: seq<seq<Entry>>)
    requires until <= k <= |s| && k <= |answers| && k <= |arrivals|
    ensures Bag(Sweep(s, k, until, answers, arrivals))
         == Bag(s[..until]) + Bag(Survivors(s, k, until, answers)) + Bag(s[k..]) + Bag(Arrived(arrivals, k, until))
    decreases k
  {
    hide Leaves, Stays, RemoveAt, ResetAt, Bag;
    if k == until {
      assert s == s[..until] + s[k..];
      BagAppend(s[..until], s[k..]);
      EmptyBag();
    } else {
      var s1 := s + arrivals[k - 1];
      var leaves := Leaves(s1[k - 1], answers[k - 1]);
      StaysOrLeaves(s1[k - 1], answers[k - 1]);
      var s2 := if leaves then RemoveAt(s1, k - 1) else ResetAt(s1, k - 1);
      SweepBalance(s2, k - 1, until, answers, arrivals);
      SamePrefix(s, s1, s2, k - 1, until);
      SurvivorsOfPrefix(s, s2, k - 1, until, answers);
      assert s1[k..] == s[k..] + arrivals[k - 1];
      BagAppend(s[k..], arrivals[k - 1]);
      BagAppend(Arrived(arrivals, k - 1, until), arrivals[k - 1]);
      BagAppend(Survivors(s, k - 1, until, answers), if leaves then [] else [s[k - 1]]);
      EmptyBag();
      if leaves { BagRemove(s1, k - 1); } else { BagReset(s1, k - 1); }
    }
  }

  lemma {:induction false} EmptyBag()
    ensures Bag([]) == multiset{}
  {}

  lemma {:induction false} SamePrefix(s: seq<Entry>, s1: seq<Entry>, s2: seq<Entry>, k: nat, until: nat)
    requires until <= k <= |s| && k <= |s1| && k <= |s2| && s1[..k] == s[..k] && s2[..k] == s1[..k]
    ensures s2[..k] == s[..k] && s2[..until] == s[..until]
  {
    assert s2[..until] == s2[..k][..until] && s[..until] == s[..k][..until];
  }

  /** A sweep that is not stopped: exactly the pairs that neither completed nor failed, and the new ones. */
  lemma {:induction false} FullSweep(s: seq<Entry>, answers: seq<Answer>, arrivals: seq<seq<Entry>>)
    requires |answers| == |arrivals| == |s|
    ensures Bag(Sweep(s, |s|, 0, answers, arrivals)) == Bag(Survivors(s, |s|, 0, answers)) + Bag(Arrived(arrivals, |s|, 0))
    ensures Examined(s, |s|, 0, answers, arrivals) == Backwards(s)
  {
    hide Sweep, Survivors, Arrived, Examined;
    SweepBalance(s, |s|, 0, answers, arrivals);
    ExaminedIsInitial(s, |s|, 0, answers, arrivals);
    assert s[..0] == [] && s[|s|..] == [] && s[0..|s|] == s;
    EmptyBag();
  }

  /** The events of an entry are cleared, or it is a new one. */
  predicate Cleared(e: Entry, new': seq<Entry>) {
    e.poll.revents == 0 || e in new'
  }

  lemma {:induction false} ClearedAmong(e: Entry, a: seq<Entry>, b: seq<Entry>, c: seq<Entry>)
    requires Cleared(e, a + b + c)
    ensures Cleared(e, a + (c + b))
  {
    if e.poll.revents != 0 {
      assert e in a || e in b || e in c;
      assert e in c || e in b ==> e in c + b;
    }
  }

  /** After the sweep no entry that was looked at has events left for the next poll. */
  lemma {:induction false} SweepClears(s: seq<Entry>, k: nat, answers: seq<Answer>, arrivals: seq<seq<Entry>>, new': seq<Entry>, i: nat)
    requires k <= |s| && k <= |answers| && k <= |arrivals|
    requires forall j :: k <= j < |s| ==> Cleared(s[j], new')
    requires i < |Sweep(s, k, 0, answers, arrivals)|
    ensures Cleared(Sweep(s, k, 0, answers, arrivals)[i], new' + Arrived(arrivals, k, 0))
    decreases k
  {
    hide Leaves;
    if k > 0 {
      var s' := AfterRound(s, k - 1, answers[k - 1], arrivals[k - 1]);
      var more, before := new' + arrivals[k - 1], Arrived(arrivals, k - 1, 0);
      forall j | k - 1 <= j < |s'| ensures Cleared(s'[j], more) {
        RoundClears(s, k, answers[k - 1], arrivals[k - 1], new', j);
      }
      SweepClears(s', k - 1, answers, arrivals, more, i);
      ClearedAmong(Sweep(s, k, 0, answers, arrivals)[i], new', arrivals[k - 1], before);
    } else {
      assert new' + [] == new';
    }
  }

  lemma {:induction false} ArrivedStep(arrivals: seq<seq<Entry>>, k: nat)
    requires 0 < k <= |arrivals|
    ensures Arrived(arrivals, k, 0) == Arrived(arrivals, k - 1, 0) + arrivals[k - 1]
  {}

  lemma {:induction false} RoundClears(s: seq<Entry>, k: nat, answer: Answer, arrived: seq<Entry>, new': seq<Entry>, i: nat)
    requires 0 < k <= |s| && forall j :: k <= j < |s| ==> Cleared(s[j], new')
    requires k - 1 <= i < |AfterRound(s, k - 1, answer, arrived)|
    ensures Cleared(AfterRound(s, k - 1, answer, arrived)[i], new' + arrived)
  {
    hide Leaves;
    var s1 := s + arrived;
    assert forall j :: k <= j < |s1| ==> Cleared(s1[j], new' + arrived) by {
      forall j | k <= j < |s1| ensures Cleared(s1[j], new' + arrived) {
        if j < |s| { assert Cleared(s[j], new'); } else { assert s1[j] == arrived[j - |s|]; }
      }
    }
  }

  // ---------------------------------------------------------------- the table

  /** The entry that append writes. */
  function NewEntry(events: bv16, fd: int, obj: Ref): (e: Entry) {
    Entry(PollFd(fd, events, 0), obj)
  }

  /** The kernel's answers written into the first entries. */
  function WithRevents(s: seq<Entry>, revents: seq<bv16>): (r: seq<Entry>)
    requires |revents| == |s|
    ensures |r| == |s|
  {
    seq(|s|, i requires 0 <= i < |s| => s[i].(poll := s[i].poll.(revents := revents[i])))
  }

  class Poll {
    var events: bv16
    var used: nat
    var memsize: nat
    var polls: array<PollFd>
    var ppsocks: array<Ref>

    /** One slot more than is used, once there is memory. */
    ghost predicate Valid()
      reads this
    {
      polls.Length == memsize && ppsocks.Length == memsize && (if memsize == 0 then used == 0 else used < memsize)
    }

    ghost function Contents(): (s: seq<Entry>)
      requires Valid()
      reads this, polls, ppsocks
      ensures |s| == used && forall i :: 0 <= i < used ==> s[i] == Entry(polls[i], ppsocks[i])
    {
      seq(used, i requires 0 <= i < used reads this, polls, ppsocks requires Valid() => Entry(polls[i], ppsocks[i]))
    }

    constructor (events: bv16)
      ensures Valid() && this.events == events && Contents() == [] && fresh(polls) && fresh(ppsocks)
    {
      this.events, used, memsize := events, 0, 0;
      polls, ppsocks := new PollFd[0], new Ref[0];
    }

    /** Poll::prepare: 1024 slots more; `memory` says whether malloc succeeds. */
    method Prepare(memory: bool) returns (ok: bool)
      requires Valid()
      modifies this`polls, this`ppsocks, this`memsize
      ensures Valid() && ok == memory && Contents() == old(Contents())
      ensures ok ==> memsize == old(memsize) + PIECE_SIZE && fresh(polls) && fresh(ppsocks)
      ensures !ok ==> memsize == old(memsize) && polls == old(polls) && ppsocks == old(ppsocks)
    {
      if !memory { return false; }
      var size := memsize + PIECE_SIZE;
      var old1, old2 := polls, ppsocks;
      var new1 := new PollFd[size](i requires 0 <= i reads old1 => if i < old1.Length then old1[i] else UNUSED);
      var new2 := new Ref[size](i requires 0 <= i reads old2 => if i < old2.Length then old2[i] else None);
      polls, ppsocks, memsize := new1, new2, size;
      ok := true;
    }

    /** Poll::append. */
    method Append(fd: int, obj: Ref, memory: bool) returns (ok: bool)
      requires Valid()
      modifies this`polls, this`ppsocks, this`memsize, this`used, polls, ppsocks
      ensures Valid() && ok == (memory || old(used) + 1 < old(memsize))
      ensures Contents() == if ok then old(Contents()) + [NewEntry(events, fd, obj)] else old(Contents())
      ensures polls == old(polls) || fresh(polls)
      ensures ppsocks == old(ppsocks) || fresh(ppsocks)
    {
      ok := true;
      if used >= memsize - 1 {
        ok := Prepare(memory);
        if !ok { return; }
      }
      polls[used] := PollFd(fd, events, 0);
      ppsocks[used] := obj;
      used := used + 1;
    }

    /** Poll::remove; positions outside the table change nothing. */
    method Remove(position: int)
      requires Valid()
      modifies this`used, polls, ppsocks
      ensures Valid()
      ensures Contents() == if 0 <= position < old(used) then RemoveAt(old(Contents()), position) else old(Contents())
    {
      if used == 0 || position < 0 || used <= position { return; }
      var last := used - 1;
      polls[position] := polls[last];
      ppsocks[position] := ppsocks[last];
      polls[last] := polls[last].(fd := -1);
      ppsocks[last] := None;
      used := used - 1;
    }

    /** Poll::getObject. */
    method GetObject(position: int) returns (ok: bool, obj: Ref)
      requires Valid()
      ensures ok == (0 <= position < used) && (ok ==> obj == Contents()[position].obj)
    {
      if used == 0 || position < 0 || used <= position { return false, None; }
      return true, ppsocks[position];
    }

    method GetPollErr(position: nat) returns (e: bv16)
      requires Valid() && position < used
      ensures e == PollErr(Contents()[position].poll.revents)
    {
      if polls[position].revents & POLLERR != 0 { return POLLERR; }
      if polls[position].revents & POLLNVAL != 0 { return POLLNVAL; }
      if polls[position].revents & POLLHUP != 0 { return POLLHUP; }
      return 0;
    }

    method IsPollOut(position: nat) returns (b: bool)
      requires Valid() && position < used
      ensures b == (Contents()[position].poll.revents & POLLOUT != 0)
    {
      b := polls[position].revents & POLLOUT != 0;
    }

    /** Poll::resetRevents. */
    method ResetRevents(position: nat)
      requires Valid()
      modifies polls
      ensures Valid() && Contents() == if position < used then ResetAt(old(Contents()), position) else old(Contents())
    {
      if used != 0 && used > position {
        polls[position] := polls[position].(revents := 0);
      }
    }

    /** The kernel's part of Poll::poll. */
    method SetRevents(revents: seq<bv16>)
      requires Valid() && |revents| == used
      modifies polls
      ensures Valid() && Contents() == WithRevents(old(Contents()), revents)
    {
      forall i | 0 <= i < used {
        polls[i] := polls[i].(revents := revents[i]);
      }
    }
  }

  // ---------------------------------------------------------------- the sweep

  function NewEntries(events: bv16, pairs: seq<(int, Ref)>): (s: seq<Entry>)
    ensures |s| == |pairs|
  {
    seq(|pairs|, i requires 0 <= i < |pairs| => NewEntry(events, pairs[i].0, pairs[i].1))
  }

  function AllNew(events: bv16, arrivals: seq<seq<(int, Ref)>>): (s: seq<seq<Entry>>)
    ensures |s| == |arrivals|
  {
    seq(|arrivals|, i requires 0 <= i < |arrivals| => NewEntries(events, arrivals[i]))
  }

  /** What other threads do to the table between two turns. */
  method AppendAll(poll: Poll, pairs: seq<(int, Ref)>)
    requires poll.Valid()
    modifies poll`polls, poll`ppsocks, poll`memsize, poll`used, poll.polls, poll.ppsocks
    ensures poll.Valid() && poll.Contents() == old(poll.Contents()) + NewEntries(poll.events, pairs)
    ensures poll.polls == old(poll.polls) || fresh(poll.polls)
    ensures poll.ppsocks == old(poll.ppsocks) || fresh(poll.ppsocks)
  {
    var i := 0;
    ghost var start := poll.Contents();
    assert start + NewEntries(poll.events, pairs[..0]) == start;
    while i < |pairs|
      invariant 0 <= i <= |pairs| && poll.Valid()
      invariant poll.Contents() == start + NewEntries(poll.events, pairs[..i])
      invariant poll.polls == old(poll.polls) || fresh(poll.polls)
      invariant poll.ppsocks == old(poll.ppsocks) || fresh(poll.ppsocks)
    {
      var ok := poll.Append(pairs[i].0, pairs[i].1, true);
      assert NewEntries(poll.events, pairs[..i + 1])
          == NewEntries(poll.events, pairs[..i]) + [NewEntry(poll.events, pairs[i].0, pairs[i].1)];
      i := i + 1;
    }
    assert pairs[..i] == pairs;
  }

  /** One turn of the sweep at position k. */
  method Turn(poll: Poll, k: nat, answer: Answer)
    requires poll.Valid() && k < poll.used
    modifies poll`used, poll.polls, poll.ppsocks
    ensures poll.Valid()
    ensures var s := old(poll.Contents());
      poll.Contents() == if Leaves(s[k], answer) then RemoveAt(s, k) else ResetAt(s, k)
  {
    hide RemoveAt, ResetAt, PollErr;
    var iserror: bool;
    // getObject cannot fail at a position inside the table
    var found, obj := poll.GetObject(k);
    assert found;
    var err := poll.GetPollErr(k);
    iserror := err != 0;
    if !iserror {
      var out := poll.IsPollOut(k);
      if out {
        if answer == Failure {
          iserror := true;
        } else if answer == Complete {
          poll.Remove(k);
          return;
        }
      }
    }
    if iserror {
      poll.Remove(k);
    } else {
      poll.ResetRevents(k);
    }
  }

  /** Appends by other threads, then one turn. */
  method Round(poll: Poll, k: nat, answer: Answer, pairs: seq<(int, Ref)>) returns (ghost e: Entry)
    requires poll.Valid() && k < poll.used
    modifies poll`polls, poll`ppsocks, poll`memsize, poll`used, poll.polls, poll.ppsocks
    ensures poll.Valid() && poll.Contents() == AfterRound(old(poll.Contents()), k, answer, NewEntries(poll.events, pairs))
    ensures e == old(poll.Contents())[k]
    ensures poll.polls == old(poll.polls) || fresh(poll.polls)
    ensures poll.ppsocks == old(poll.ppsocks) || fresh(poll.ppsocks)
  {
    hide Leaves, RemoveAt, ResetAt, NewEntries;
    e := poll.Contents()[k];
    AppendAll(poll, pairs);
    Turn(poll, k, answer);
  }

  /** The loop of sendPackets. */
  method RunSweep(poll: Poll, answers: seq<Answer>, arrivals: seq<seq<(int, Ref)>>, until: nat)
    returns (ghost examined: seq<Entry>)
    requires poll.Valid() && |answers| == |arrivals| == poll.used >= until
    modifies poll`polls, poll`ppsocks, poll`memsize, poll`used, poll.polls, poll.ppsocks
    ensures poll.Valid()
    ensures var s := old(poll.Contents());
      && poll.Contents() == Sweep(s, |s|, until, answers, AllNew(poll.events, arrivals))
      && examined == Examined(s, |s|, until, answers, AllNew(poll.events, arrivals))
  {
    hide Sweep, Examined, AfterRound, NewEntries;
    ghost var s, all := poll.Contents(), AllNew(poll.events, arrivals);
    var size := poll.used;
    var k := size;
    examined := [];
    assert [] + Examined(s, size, until, answers, all) == Examined(s, size, until, answers, all);
    while k > until
      invariant until <= k <= size && poll.Valid() && k <= poll.used
      invariant Sweep(poll.Contents(), k, until, answers, all) == Sweep(s, size, until, answers, all)
      invariant examined + Examined(poll.Contents(), k, until, answers, all) == Examined(s, size, until, answers, all)
      invariant poll.polls == old(poll.polls) || fresh(poll.polls)
      invariant poll.ppsocks == old(poll.ppsocks) || fresh(poll.ppsocks)
    {
      SweepTurn(poll.Contents(), k, until, answers, all, examined);
      ghost var e := Round(poll, k - 1, answers[k - 1], arrivals[k - 1]);
      examined := examined + [e];
      k := k - 1;
    }
    SweepEnd(poll.Contents(), k, answers, all, examined);
  }

  /** The answer of poll(2). */
  datatype Kernel = PollError | Polled(count: nat, revents: seq<bv16>)

  /**
   * HttpdSendStream::sendPackets.  answers[k] is how sendStream ends for the client at
   * position k, arrivals[k] what is appended before that turn, and the thread is stopped
   * before it gets below position `until`.
   */
  method SendPackets(poll: Poll, kernel: Kernel, answers: seq<Answer>, arrivals: seq<seq<(int, Ref)>>, until: nat)
    returns (ghost examined: seq<Entry>)
    requires poll.Valid() && |answers| == |arrivals| == poll.used >= until
    requires kernel.Polled? ==> |kernel.revents| == poll.used
    modifies poll`polls, poll`ppsocks, poll`memsize, poll`used, poll.polls, poll.ppsocks
    ensures poll.Valid()
    ensures
      if old(poll.used) == 0 || kernel.PollError? then poll.Contents() == old(poll.Contents()) && examined == []
      else if kernel.count == 0 then poll.Contents() == WithRevents(old(poll.Contents()), kernel.revents) && examined == []
      else
        var s := WithRevents(old(poll.Contents()), kernel.revents);
        && poll.Contents() == Sweep(s, |s|, until, answers, AllNew(poll.events, arrivals))
        && examined == Examined(s, |s|, until, answers, AllNew(poll.events, arrivals))
  {
    hide Sweep, Examined, WithRevents, AllNew;
    examined := [];
    var size := poll.used;
    if size == 0 || kernel.PollError? { return; }
    poll.SetRevents(kernel.revents);
    if kernel.count == 0 { return; }
    examined := RunSweep(poll, answers, arrivals, until);
  }

  lemma {:induction false} SweepTurn(s: seq<Entry>, k: nat, until: nat, answers: seq<Answer>, arrivals: seq<seq<Entry>>, done: seq<Entry>)
    requires until < k <= |s| && k <= |answers| && k <= |arrivals|
    ensures var s2 := AfterRound(s, k - 1, answers[k - 1], arrivals[k - 1]);
      && Sweep(s, k, until, answers, arrivals) == Sweep(s2, k - 1, until, answers, arrivals)
      && done + Examined(s, k, until, answers, arrivals) == done + [s[k - 1]] + Examined(s2, k - 1, until, answers, arrivals)
  {
    hide Leaves, RemoveAt, ResetAt;
  }

  lemma {:induction false} SweepEnd(s: seq<Entry>, k: nat, answers: seq<Answer>, arrivals: seq<seq<Entry>>, done: seq<Entry>)
    requires k <= |s| && k <= |answers| && k <= |arrivals|
    ensures Sweep(s, k, k, answers, arrivals) == s && done + Examined(s, k, k, answers, arrivals) == done
  {}
}
