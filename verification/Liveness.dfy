/** The four timestamps of src/wd_util.c:58-154 and what they say of the connection. */
module Liveness {

  /** Zero until first written. */
  datatype Stamps = Stamps(online: int, offline: int, authOnline: int, authOffline: int)

  const UNWRITTEN := Stamps(0, 0, 0, 0)

  predicate IsOnline(s: Stamps, interval: int) {
    !(s.online == 0 || s.offline - s.online >= interval * 2)
  }

  predicate IsAuthOnline(s: Stamps, interval: int) {
    if !IsOnline(s, interval) then false
    else !(s.authOnline == 0 || s.authOffline - s.authOnline >= interval * 2)
  }

  /** The calls of the program, each with the clock readings it takes. */
  datatype Mark =
    | MarkOnline(now: int)
    | MarkOffline(now: int, later: int)
    | MarkAuthOnline(now: int, later: int)
    | MarkAuthOffline(now: int)

  /** The clock at the first and at the last reading of a call. */
  function Started(m: Mark): int {
    m.now
  }

  function Ended(m: Mark): int {
    match m
    case MarkOffline(_, later) => later
    case MarkAuthOnline(_, later) => later
    case _ => m.now
  }

  function Marked(s: Stamps, m: Mark): Stamps {
    match m
    case MarkOnline(now) => s.(online := now)
    case MarkOffline(now, later) => s.(offline := now, authOffline := later)
    case MarkAuthOnline(now, later) => s.(authOnline := now, online := later)
    case MarkAuthOffline(now) => s.(authOffline := now)
  }

  function Run(marks: seq<Mark>): Stamps {
    if marks == [] then UNWRITTEN else Marked(Run(marks[..|marks| - 1]), marks[|marks| - 1])
  }

  /** A positive clock that never runs backwards, within calls and between them. */
  ghost predicate Monotone(marks: seq<Mark>) {
    && (forall i :: 0 <= i < |marks| ==> 0 < Started(marks[i]) <= Ended(marks[i]))
    && forall i, j :: 0 <= i < j < |marks| ==> Ended(marks[i]) <= Started(marks[j])
  }

  /** What holds between calls. */
  ghost predicate Good(s: Stamps) {
    && 0 <= s.authOnline <= s.online
    && 0 <= s.offline <= s.authOffline
  }

  ghost predicate Past(s: Stamps, now: int) {
    s.online <= now && s.offline <= now && s.authOnline <= now && s.authOffline <= now
  }

  lemma {:induction false} RunIsGood(marks: seq<Mark>)
    requires Monotone(marks)
    ensures Good(Run(marks))
    ensures Past(Run(marks), if marks == [] then 0 else Ended(marks[|marks| - 1]))
  {
    if marks != [] {
      var n := |marks| - 1;
      var before := marks[..n];
      assert forall i :: 0 <= i < n ==> before[i] == marks[i];
      RunIsGood(before);
      assert n > 0 ==> Ended(marks[n - 1]) <= Started(marks[n]);
    }
  }

  /** Asking is_online first never changes what the auth server's own stamps say. */
  lemma EarlyExitIsHarmless(s: Stamps, interval: int)
    requires Good(s)
    ensures IsAuthOnline(s, interval) <==> s.authOnline != 0 && s.authOffline - s.authOnline < interval * 2
  {
  }

  /** In every run the early exit is harmless, and a reachable auth server means being online. */
  lemma AuthAnswerInEveryRun(marks: seq<Mark>, interval: int)
    requires Monotone(marks)
    ensures var s := Run(marks);
            && (IsAuthOnline(s, interval) <==> s.authOnline != 0 && s.authOffline - s.authOnline < interval * 2)
            && (IsAuthOnline(s, interval) ==> IsOnline(s, interval))
  {
    RunIsGood(marks);
    EarlyExitIsHarmless(Run(marks), interval);
  }

  /** After a successful connection both answers are yes, whatever went before. */
  lemma ConnectedMeansOnline(marks: seq<Mark>, interval: int)
    requires Monotone(marks) && interval > 0
    requires marks != [] && marks[|marks| - 1].MarkAuthOnline?
    ensures IsOnline(Run(marks), interval) && IsAuthOnline(Run(marks), interval)
  {
    var n := |marks| - 1;
    var before := marks[..n];
    assert forall i :: 0 <= i < n ==> before[i] == marks[i];
    RunIsGood(before);
    assert n > 0 ==> Ended(marks[n - 1]) <= Started(marks[n]);
  }

  // ----- The answers read off the history -----

  /** A call that says the connection, or the auth server, is there; one that says it is not. */
  predicate SaysUp(m: Mark, auth: bool) {
    if auth then m.MarkAuthOnline? else m.MarkOnline? || m.MarkAuthOnline?
  }

  predicate SaysDown(m: Mark, auth: bool) {
    if auth then m.MarkAuthOffline? || m.MarkOffline? else m.MarkOffline?
  }

  /** When the call took the reading it leaves for that answer. */
  function ReadingFor(m: Mark, auth: bool): int {
    match m
    case MarkAuthOnline(now, later) => if auth then now else later
    case MarkOffline(now, later) => if auth then later else now
    case _ => m.now
  }

  /** Call i is the last of its kind. */
  ghost predicate LastUp(marks: seq<Mark>, auth: bool, i: nat) {
    i < |marks| && SaysUp(marks[i], auth) && forall j :: i < j < |marks| ==> !SaysUp(marks[j], auth)
  }

  ghost predicate LastDown(marks: seq<Mark>, auth: bool, i: nat) {
    i < |marks| && SaysDown(marks[i], auth) && forall j :: i < j < |marks| ==> !SaysDown(marks[j], auth)
  }

  function UpStamp(s: Stamps, auth: bool): int {
    if auth then s.authOnline else s.online
  }

  function DownStamp(s: Stamps, auth: bool): int {
    if auth then s.authOffline else s.offline
  }

  lemma {:induction false} UpStampIsLast(marks: seq<Mark>, auth: bool, i: nat)
    requires LastUp(marks, auth, i)
    ensures UpStamp(Run(marks), auth) == ReadingFor(marks[i], auth)
    decreases |marks|
  {
    var n := |marks| - 1;
    if i < n {
      assert forall j :: 0 <= j < n ==> marks[..n][j] == marks[j];
      UpStampIsLast(marks[..n], auth, i);
      assert !SaysUp(marks[n], auth);
    }
  }

  lemma {:induction false} DownStampIsLast(marks: seq<Mark>, auth: bool, i: nat)
    requires LastDown(marks, auth, i)
    ensures DownStamp(Run(marks), auth) == ReadingFor(marks[i], auth)
    decreases |marks|
  {
    var n := |marks| - 1;
    if i < n {
      assert forall j :: 0 <= j < n ==> marks[..n][j] == marks[j];
      DownStampIsLast(marks[..n], auth, i);
      assert !SaysDown(marks[n], auth);
    }
  }

  lemma {:induction false} NoUpStamp(marks: seq<Mark>, auth: bool)
    requires forall i :: 0 <= i < |marks| ==> !SaysUp(marks[i], auth)
    ensures UpStamp(Run(marks), auth) == 0
  {
    if marks != [] {
      var n := |marks| - 1;
      assert forall j :: 0 <= j < n ==> marks[..n][j] == marks[j];
      NoUpStamp(marks[..n], auth);
      assert !SaysUp(marks[n], auth);
    }
  }

  /** The hysteresis: a failure takes the connection down exactly when the last sign of life is
      at least two check intervals older than the last failure. */
  lemma DownAfterTwoIntervals(marks: seq<Mark>, interval: int, auth: bool, up: nat, down: nat)
    requires Monotone(marks) && LastUp(marks, auth, up) && LastDown(marks, auth, down)
    ensures (if auth then IsAuthOnline(Run(marks), interval) else IsOnline(Run(marks), interval)) <==>
            ReadingFor(marks[down], auth) - ReadingFor(marks[up], auth) < interval * 2
  {
    RunIsGood(marks);
    EarlyExitIsHarmless(Run(marks), interval);
    UpStampIsLast(marks, auth, up);
    DownStampIsLast(marks, auth, down);
    assert 0 < Started(marks[up]) <= Ended(marks[up]);
  }

  /** With no sign of life yet there is no connection. */
  lemma DownUntilSeen(marks: seq<Mark>, interval: int, auth: bool)
    requires forall i :: 0 <= i < |marks| ==> !SaysUp(marks[i], auth)
    ensures if auth then !IsAuthOnline(Run(marks), interval) else !IsOnline(Run(marks), interval)
  {
    NoUpStamp(marks, auth);
  }

  /** The static variables of wd_util.c. */
  class Monitor {
    var stamps: Stamps
    ghost var history: seq<Mark>

    ghost predicate Valid()
      reads this
    {
      stamps == Run(history) && Monotone(history)
    }

    /** The clock has not gone back since the last call. */
    ghost predicate Since(now: int)
      reads this
    {
      0 < now && forall i :: 0 <= i < |history| ==> Ended(history[i]) <= now
    }

    constructor ()
      ensures Valid() && history == []
    {
      stamps := UNWRITTEN;
      history := [];
    }

    method AnswerOnline(interval: int) returns (b: bool)
      ensures b <==> IsOnline(stamps, interval)
    {
      if stamps.online == 0 || stamps.offline - stamps.online >= interval * 2 {
        return false;
      }
      return true;
    }

    method AnswerAuthOnline(interval: int) returns (b: bool)
      requires Valid()
      ensures b <==> stamps.authOnline != 0 && stamps.authOffline - stamps.authOnline < interval * 2
    {
      RunIsGood(history);
      var online := AnswerOnline(interval);
      if !online {
        return false;
      } else if stamps.authOnline == 0 || stamps.authOffline - stamps.authOnline >= interval * 2 {
        return false;
      }
      return true;
    }

    ghost method Record(m: Mark)
      requires Monotone(history) && Since(Started(m)) && Started(m) <= Ended(m) && stamps == Marked(Run(history), m)
      modifies this`history
      ensures Valid() && history == old(history) + [m]
    {
      history := history + [m];
      assert history[..|history| - 1] == old(history);
    }

    method SeeOnline(now: int)
      requires Valid() && Since(now)
      modifies this
      ensures Valid() && history == old(history) + [MarkOnline(now)]
    {
      stamps := stamps.(online := now);
      Record(MarkOnline(now));
    }

    method SeeAuthOffline(now: int)
      requires Valid() && Since(now)
      modifies this
      ensures Valid() && history == old(history) + [MarkAuthOffline(now)]
    {
      stamps := stamps.(authOffline := now);
      Record(MarkAuthOffline(now));
    }

    /** No connection at all means no auth server either. */
    method SeeOffline(now: int, later: int)
      requires Valid() && Since(now) && now <= later
      modifies this
      ensures Valid() && history == old(history) + [MarkOffline(now, later)]
    {
      stamps := stamps.(offline := now);
      stamps := stamps.(authOffline := later);
      Record(MarkOffline(now, later));
    }

    /** An auth server that answers means there is a connection. */
    method SeeAuthOnline(now: int, later: int)
      requires Valid() && Since(now) && now <= later
      modifies this
      ensures Valid() && history == old(history) + [MarkAuthOnline(now, later)]
    {
      stamps := stamps.(authOnline := now);
      stamps := stamps.(online := later);
      Record(MarkAuthOnline(now, later));
    }

    /** connect_auth_server, once its attempts are over. */
    method AfterConnect(sockfd: int, interval: int, now: int, later: int)
      requires Valid() && Since(now) && now <= later
      modifies this
      ensures Valid()
      ensures sockfd == -1 ==> history == old(history) + [MarkAuthOffline(now)]
      ensures sockfd != -1 ==> history == old(history) + [MarkAuthOnline(now, later)]
      ensures sockfd != -1 && interval > 0 ==> IsOnline(stamps, interval) && IsAuthOnline(stamps, interval)
    {
      if sockfd == -1 {
        SeeAuthOffline(now);
      } else {
        SeeAuthOnline(now, later);
        if interval > 0 {
          ConnectedMeansOnline(history, interval);
        }
      }
    }
  }
}
