/** Compacting the database file at startup: the file operations, one step each,
    with a crash possible between any two of them. */
module Compaction {
  import opened Nostr

  // ----- Files -------------------------------------------------------------------

  /** What the database holds, however it is laid out on disk. */
  type Contents = set<string>

  const EMPTY_DATABASE: Contents := {}

  datatype File = Absent | Partial | Whole(contents: Contents, compacted: bool)

  predicate Holds(f: File, c: Contents) {
    f.Whole? && f.contents == c
  }

  /** Where the process is: before the named operation. */
  datatype Pc =
    | Down | Booting | Checking | Cleaning | CheckingBackup | StartingCopy | Copying | CleaningUp
    | SettingAside | MovingIn | MovingBack | Reopening | RemovingNew | Restoring | DroppingBackup
    | Opening | Running

  /** `truth` is what the relay last had, `reopened` whether the new file has been
      opened; `requests` and `attempts` count. */
  datatype State = State(pc: Pc, live: File, staged: File, backup: File, request: bool,
                         truth: Contents, reopened: bool, requests: nat, attempts: nat)

  // ----- Steps -----------------------------------------------------------------------

  /** The steps of the code; operations that can fail have both outcomes. */
  ghost predicate Proceeds(s: State, s': State) {
    match s.pc
    case Down => s' == s.(pc := Booting)
    case Booting =>
      || (!s.request && s' == s.(pc := Opening))
      || (s.request && s' == s.(pc := Opening))
      || (s.request && s' == s.(pc := Checking, request := false, attempts := s.attempts + 1))
    case Checking =>
      || s' == s.(pc := Opening)
      || (s.live != Absent && s' == s.(pc := Cleaning))
    case Cleaning => s' == s.(pc := CheckingBackup) || s' == s.(pc := CheckingBackup, staged := Absent)
    case CheckingBackup =>
      if s.backup != Absent then s' == s.(pc := Opening) else s' == s.(pc := StartingCopy)
    case StartingCopy => s' == s.(pc := CleaningUp) || s' == s.(pc := Copying, staged := Partial)
    case Copying =>
      || s' == s.(pc := CleaningUp)
      || (s.live.Whole? && s' == s.(pc := SettingAside, staged := Whole(s.live.contents, true)))
    case CleaningUp => s' == s.(pc := Opening) || s' == s.(pc := Opening, staged := Absent)
    case SettingAside =>
      || s' == s.(pc := Opening)
      || s' == s.(pc := MovingIn, live := Absent, backup := s.live, reopened := false)
    case MovingIn =>
      || s' == s.(pc := MovingBack)
      || s' == s.(pc := Reopening, live := s.staged, staged := Absent)
    case MovingBack => s' == s.(pc := Opening) || s' == s.(pc := Opening, live := s.backup, backup := Absent)
    case Reopening => s' == s.(pc := RemovingNew) || s' == s.(pc := DroppingBackup, reopened := true)
    case RemovingNew => s' == s.(pc := Restoring) || s' == s.(pc := Restoring, live := Absent)
    case Restoring => s' == s.(pc := Opening) || s' == s.(pc := Opening, live := s.backup, backup := Absent)
    case DroppingBackup => s' == s.(pc := Opening) || s' == s.(pc := Opening, backup := Absent)
    case Opening =>
      s' == s.(pc := Running, live := if s.live == Absent then Whole(EMPTY_DATABASE, false) else s.live)
    case Running =>
      exists c :: s' == s.(live := Whole(c, false), truth := if Holds(s.live, s.truth) then c else s.truth)
  }

  /** A step of the code, a crash, or somebody asking for a compaction; writing the
      request down may fail, and leave a file or none. */
  ghost predicate Next(s: State, s': State) {
    || Proceeds(s, s') || s' == s.(pc := Down)
    || s' == s.(request := true, requests := s.requests + 1)
    || s' == s.(requests := s.requests + 1)
  }

  ghost predicate IsPath(states: seq<State>) {
    states != [] && forall i :: 0 <= i < |states| - 1 ==> Next(states[i], states[i + 1])
  }

  // ----- Nothing is lost -----------------------------------------------------------------

  /** The original contents, or a complete compacted copy, are in the live file or
      in the backup. */
  predicate IsSafe(s: State) {
    Holds(s.live, s.truth) || Holds(s.backup, s.truth)
  }

  predicate Inv(s: State) {
    && IsSafe(s) && s.live != Partial && s.backup != Partial
    && s.attempts + (if s.request then 1 else 0) <= s.requests
    && (s.pc in {Cleaning, CheckingBackup} ==> s.live != Absent)
    && (s.pc in {StartingCopy, Copying, SettingAside} ==> s.backup == Absent)
    && (s.pc == SettingAside ==> s.staged == Whole(s.truth, true))
    && (s.pc in {MovingIn, MovingBack, Reopening, RemovingNew, Restoring} ==> Holds(s.backup, s.truth))
    && (s.pc == MovingIn ==> s.staged == Whole(s.truth, true))
    && (s.pc in {Reopening, DroppingBackup} ==> s.live == Whole(s.truth, true))
    && (s.pc == DroppingBackup ==> s.reopened)
  }

  predicate IsInitial(s: State) {
    && s.pc == Down && Holds(s.live, s.truth) && s.backup == Absent
    && !s.request && s.requests == 0 && s.attempts == 0
  }

  /** A path from an initial state: everything that has happened so far. */
  ghost predicate IsHistory(states: seq<State>) {
    IsPath(states) && IsInitial(states[0])
  }

  lemma NextKeepsInv(s: State, s': State)
    requires Inv(s) && Next(s, s')
    ensures Inv(s')
  {
    if Proceeds(s, s') {
      if s.pc in {MovingIn, MovingBack, Reopening, RemovingNew, Restoring, DroppingBackup} {
        SwappingKeepsInv(s, s');
      } else {
        PreparingKeepsInv(s, s');
      }
    } else {
      hide Proceeds;
    }
  }

  lemma SwappingKeepsInv(s: State, s': State)
    requires Inv(s) && Proceeds(s, s')
    requires s.pc in {MovingIn, MovingBack, Reopening, RemovingNew, Restoring, DroppingBackup}
    ensures Inv(s')
  {
  }

  lemma PreparingKeepsInv(s: State, s': State)
    requires Inv(s) && Proceeds(s, s')
    requires s.pc !in {MovingIn, MovingBack, Reopening, RemovingNew, Restoring, DroppingBackup}
    ensures Inv(s')
  {
  }

  lemma {:induction false} PathKeepsInv(states: seq<State>, n: nat)
    requires IsHistory(states) && n < |states|
    ensures Inv(states[n])
  {
    if n > 0 {
      hide Next, Inv;
      PathKeepsInv(states, n - 1);
      NextKeepsInv(states[n - 1], states[n]);
    }
  }

  /** Whatever crashes, restarts, failures and new requests there are: the data is in
      the live file or in the backup, complete, and there have been no more attempts
      than requests. */
  lemma NothingIsLost(states: seq<State>, n: nat)
    requires IsHistory(states) && n < |states|
    ensures Holds(states[n].live, states[n].truth) || Holds(states[n].backup, states[n].truth)
    ensures states[n].attempts <= states[n].requests
  {
    PathKeepsInv(states, n);
  }

  /** A backup only disappears by being moved back into place, or once the compacted
      file holds everything and has been opened again. */
  lemma BackupGoesLast(states: seq<State>, n: nat)
    requires IsHistory(states) && n + 1 < |states|
    requires states[n].backup != Absent && states[n + 1].backup != states[n].backup
    ensures states[n + 1].backup == Absent
    ensures states[n + 1].live == states[n].backup ||
      (states[n].reopened && states[n].live == states[n + 1].live == Whole(states[n].truth, true))
  {
    PathKeepsInv(states, n);
    assert Next(states[n], states[n + 1]);
  }

  /** A leftover backup is never overwritten: no attempt gets as far as copying. */
  lemma BackupStopsAttempts(states: seq<State>, n: nat)
    requires IsHistory(states) && n < |states|
    requires states[n].pc in {StartingCopy, Copying, SettingAside}
    ensures states[n].backup == Absent && Holds(states[n].live, states[n].truth)
  {
    PathKeepsInv(states, n);
  }

  // ----- The code ----------------------------------------------------------------------------

  /** Which operations succeed. */
  datatype Luck = Luck(clearsRequest: bool, measures: bool, fits: bool, cleans: bool, startsCopy: bool, copies: bool,
                       cleansUp: bool, setsAside: bool, movesIn: bool, movesBack: bool, reopens: bool, removesNew: bool,
                       restores: bool, dropsBackup: bool)

  datatype Verdict = Compacted | RefusedToRun | FailedToRun

  lemma CheckingSteps(s: State)
    requires s.pc == Checking
    ensures Next(s, s.(pc := Opening)) && (s.live != Absent ==> Next(s, s.(pc := Cleaning)))
  {
  }

  lemma CleaningSteps(s: State)
    requires s.pc == Cleaning
    ensures Next(s, s.(pc := CheckingBackup)) && Next(s, s.(pc := CheckingBackup, staged := Absent))
  {
  }

  lemma BackupSteps(s: State)
    requires s.pc == CheckingBackup
    ensures Next(s, s.(pc := if s.backup != Absent then Opening else StartingCopy))
  {
  }

  class Disk {
    var live: File
    var staged: File
    var backup: File
    var request: bool
    ghost var pc: Pc
    ghost var truth: Contents
    ghost var reopened: bool
    ghost var requests: nat
    ghost var attempts: nat
    /** Every state between two operations so far, from the first. */
    ghost var trace: seq<State>

    ghost function Now(): State
      reads this
    {
      State(pc, live, staged, backup, request, truth, reopened, requests, attempts)
    }

    ghost predicate Valid()
      reads this
    {
      trace != [] && IsHistory(trace) && trace[|trace| - 1] == Now()
    }

    constructor (contents: Contents)
      ensures Valid() && IsInitial(Now()) && trace == [Now()] && truth == contents
    {
      live, staged, backup, request := Whole(contents, false), Absent, Absent, false;
      pc, truth, reopened, requests, attempts := Down, contents, false, 0, 0;
      trace := [State(Down, Whole(contents, false), Absent, Absent, false, contents, false, 0, 0)];
    }

    /** The operation just done was a step, and leads to `next`. */
    ghost method Advance(next: Pc)
      requires trace != [] && IsHistory(trace) && Next(trace[|trace| - 1], Now().(pc := next))
      modifies this`pc, this`trace
      ensures Valid() && pc == next
    {
      hide Next;
      pc := next;
      var before := trace;
      trace := trace + [Now()];
      assert forall i :: 0 <= i < |before| ==> trace[i] == before[i];
    }

    /** `leaves` is whether a failed write leaves a file all the same. */
    method StageRequest(writes: bool, leaves: bool) returns (ok: bool)
      requires Valid()
      modifies this
      ensures Valid() && ok == writes
      ensures Now() == old(Now()).(request := ok || leaves || old(request), requests := old(requests) + 1)
    {
      hide IsHistory;
      requests := requests + 1;
      if writes || leaves { request := true; }
      Advance(pc);
      ok := writes;
    }

    /** Compact in place.  When it refuses nothing has changed but leftovers. */
    method CompactNow(luck: Luck) returns (verdict: Verdict)
      requires Valid() && pc == Checking && live != Partial
      modifies this`live, this`staged, this`backup, this`pc, this`reopened, this`trace
      ensures Valid() && pc == Opening
      ensures verdict == RefusedToRun <==>
        old(live) == Absent || !luck.measures || !luck.fits || old(backup) != Absent
      ensures verdict == Compacted <==>
        (verdict != RefusedToRun && luck.startsCopy && luck.copies && luck.setsAside && luck.movesIn && luck.reopens)
      ensures verdict == RefusedToRun ==> live == old(live) && backup == old(backup)
      ensures verdict == Compacted ==> live == Whole(old(live).contents, true) && staged == Absent
      ensures verdict == Compacted ==> backup == if luck.dropsBackup then Absent else old(live)
      ensures verdict == FailedToRun && luck.movesBack && luck.restores ==> live == old(live) && backup == Absent
    {
      hide IsHistory, Next;
      var mayRun := Check(luck);
      if !mayRun { return RefusedToRun; }
      var copied := CopyOut(luck);
      if !copied { return FailedToRun; }
      var swapped := SwapIn(luck);
      verdict := if swapped then Compacted else FailedToRun;
    }

    /** Is there a database, room for a copy, and no backup that somebody must look at
        first?  A leftover copy is removed. */
    method Check(luck: Luck) returns (mayRun: bool)
      requires Valid() && pc == Checking
      modifies this`staged, this`pc, this`trace
      ensures Valid() && pc == if mayRun then StartingCopy else Opening
      ensures mayRun == (live != Absent && luck.measures && luck.fits && backup == Absent)
    {
      hide IsHistory, Next;
      CheckingSteps(Now());
      if live == Absent || !luck.measures || !luck.fits {
        Advance(Opening);
        return false;
      }
      Advance(Cleaning);
      CleaningSteps(Now());
      if staged != Absent && luck.cleans { staged := Absent; }
      Advance(CheckingBackup);
      BackupSteps(Now());
      if backup != Absent {
        Advance(Opening);
        return false;
      }
      Advance(StartingCopy);
      mayRun := true;
    }

    /** Make the compacted copy; what it leaves behind on failure is never read. */
    method CopyOut(luck: Luck) returns (ok: bool)
      requires Valid() && pc == StartingCopy && live.Whole?
      modifies this`staged, this`pc, this`trace
      ensures Valid()
      ensures ok == (luck.startsCopy && luck.copies) && pc == if ok then SettingAside else Opening
      ensures ok ==> staged == Whole(live.contents, true)
    {
      hide IsHistory;
      if luck.startsCopy {
        staged := Partial;
        Advance(Copying);
      }
      if !luck.startsCopy || !luck.copies {
        Advance(CleaningUp);
        if luck.cleansUp { staged := Absent; }
        Advance(Opening);
        return false;
      }
      staged := Whole(live.contents, true);
      Advance(SettingAside);
      ok := true;
    }

    /** Put the copy in the original's place, keeping the original until the copy opens. */
    method SwapIn(luck: Luck) returns (ok: bool)
      requires Valid() && pc == SettingAside && live.Whole? && backup == Absent
      modifies this`live, this`staged, this`backup, this`pc, this`reopened, this`trace
      ensures Valid() && pc == Opening
      ensures ok == (luck.setsAside && luck.movesIn && luck.reopens)
      ensures ok ==> live == old(staged) && staged == Absent
      ensures ok ==> backup == if luck.dropsBackup then Absent else old(live)
      ensures !ok && luck.movesBack && luck.restores ==> live == old(live) && backup == Absent
    {
      hide IsHistory;
      if !luck.setsAside {
        Advance(Opening);
        return false;
      }
      live, backup := Absent, live;
      reopened := false;
      Advance(MovingIn);
      ok := MoveIn(luck);
    }

    method MoveIn(luck: Luck) returns (ok: bool)
      requires Valid() && pc == MovingIn
      modifies this`live, this`staged, this`backup, this`pc, this`reopened, this`trace
      ensures Valid() && pc == Opening
      ensures ok == (luck.movesIn && luck.reopens)
      ensures ok ==> live == old(staged) && staged == Absent
      ensures ok ==> backup == if luck.dropsBackup then Absent else old(backup)
      ensures !ok && luck.movesBack && luck.restores ==> live == old(backup) && backup == Absent
    {
      hide IsHistory;
      if !luck.movesIn {
        Advance(MovingBack);
        if luck.movesBack { live, backup := backup, Absent; }
        Advance(Opening);
        return false;
      }
      live, staged := staged, Absent;
      Advance(Reopening);
      ok := Prove(luck);
    }

    /** Open the new file before giving up the only copy of the original. */
    method Prove(luck: Luck) returns (ok: bool)
      requires Valid() && pc == Reopening
      modifies this`live, this`backup, this`pc, this`reopened, this`trace
      ensures Valid() && pc == Opening
      ensures ok == luck.reopens
      ensures ok ==> live == old(live) && backup == if luck.dropsBackup then Absent else old(backup)
      ensures !ok && luck.restores ==> live == old(backup) && backup == Absent
    {
      hide IsHistory;
      if !luck.reopens {
        Advance(RemovingNew);
        Restore(luck);
        return false;
      }
      reopened := true;
      Advance(DroppingBackup);
      if luck.dropsBackup { backup := Absent; }
      Advance(Opening);
      ok := true;
    }

    method Restore(luck: Luck)
      requires Valid() && pc == RemovingNew
      modifies this`live, this`backup, this`pc, this`trace
      ensures Valid() && pc == Opening
      ensures luck.restores ==> live == old(backup) && backup == Absent
    {
      hide IsHistory;
      if luck.removesNew { live := Absent; }
      Advance(Restoring);
      if luck.restores { live, backup := backup, Absent; }
      Advance(Opening);
    }

    /** What startup does before the database is opened.  The request is consumed
        first, so that an attempt that kills the process is not repeated. */
    method RunPending(luck: Luck) returns (verdict: Option<Verdict>)
      requires Valid() && pc == Booting && live != Partial
      modifies this
      ensures Valid() && pc == Opening
      ensures verdict.Some? <==> old(request) && luck.clearsRequest
      ensures verdict.Some? ==> !request && attempts == old(attempts) + 1
      ensures verdict.None? ==> live == old(live) && backup == old(backup) && attempts == old(attempts)
      ensures requests == old(requests) && truth == old(truth)
    {
      hide IsHistory;
      if !request || !luck.clearsRequest {
        Advance(Opening);
        return None;
      }
      request := false;
      attempts := attempts + 1;
      Advance(Checking);
      var v := CompactNow(luck);
      verdict := Some(v);
    }
  }

  // ----- The log -----------------------------------------------------------------------------

  const MAX_LOG_ENTRIES := 20

  function Newest<X>(entries: seq<X>): seq<X> {
    if |entries| <= MAX_LOG_ENTRIES then entries else entries[|entries| - MAX_LOG_ENTRIES..]
  }

  method AppendLog<X>(log: seq<X>, entry: X) returns (entries: seq<X>)
    ensures entries == Newest(log + [entry])
  {
    entries := log + [entry];
    if |entries| > MAX_LOG_ENTRIES {
      var excess := |entries| - MAX_LOG_ENTRIES;
      entries := entries[excess..];
    }
  }

  function AppendAll<X>(log: seq<X>, es: seq<X>): seq<X> {
    if es == [] then log else Newest(AppendAll(log, es[..|es| - 1]) + [es[|es| - 1]])
  }

  /** The log is the last twenty of everything ever appended. */
  lemma {:induction false} LogIsTheNewest<X>(es: seq<X>)
    ensures AppendAll([], es) == Newest(es)
  {
    if es != [] {
      var n := |es| - 1;
      LogIsTheNewest(es[..n]);
      hide Newest;
      NewestOfMore(es[..n], es[n]);
      assert es[..n] + [es[n]] == es;
    }
  }

  lemma NewestOfMore<X>(es: seq<X>, x: X)
    ensures Newest(Newest(es) + [x]) == Newest(es + [x])
  {
    if |es| > MAX_LOG_ENTRIES {
      var d := |es| - MAX_LOG_ENTRIES;
      assert es[d..] + [x] == (es + [x])[d..];
      assert (es + [x])[d..][1..] == (es + [x])[d + 1..];
    }
  }
}
