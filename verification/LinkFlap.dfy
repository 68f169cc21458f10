/** The flap detector of link_flap.LoMPlugin: a sliding window of down events per interface. */
module LinkFlap {
  import opened Wrappers

  /** A link going down at a time, or anything else that `event_receive` may bring. */
  datatype Event = Down(ifname: string, time: int) | OtherEvent

  datatype Report = Report(ifname: string, duration: int, cnt: nat)

  /** The times at which an interface went down, in order. */
  function Times(history: seq<Event>, ifname: string): seq<int> {
    if history == [] then []
    else
      var e := history[|history| - 1];
      Times(history[..|history| - 1], ifname) + (if e.Down? && e.ifname == ifname then [e.time] else [])
  }

  function LastN(s: seq<int>, n: nat): seq<int> {
    if |s| <= n then s else s[|s| - n..]
  }

  predicate Sorted(s: seq<int>) {
    forall i, j :: 0 <= i <= j < |s| ==> s[i] <= s[j]
  }

  /** cnt of the times, the newest among them, lie within `interval` of each other. */
  ghost predicate Burst(times: seq<int>, cnt: nat, interval: int) {
    exists picked: set<nat> :: IsBurst(picked, times, cnt, interval)
  }

  ghost predicate IsBurst(picked: set<nat>, times: seq<int>, cnt: nat, interval: int) {
    && |picked| == cnt
    && times != []
    && |times| - 1 in picked
    && (forall i :: i in picked ==> i < |times|)
    && (forall i, j :: i in picked && j in picked ==> times[i] - times[j] <= interval)
  }

  /** The time spanned by the newest cnt times. */
  function Span(times: seq<int>, cnt: nat): int {
    if 1 <= cnt <= |times| then times[|times| - 1] - times[|times| - cnt] else 0
  }

  /** The test on the newest `cnt` times alone. */
  predicate WindowBurst(times: seq<int>, cnt: nat, interval: int) {
    1 <= cnt <= |times| && Span(times, cnt) <= interval
  }

  function Range(lo: nat, hi: nat): (r: set<nat>)
    requires lo <= hi
    ensures |r| == hi - lo
    ensures forall i :: i in r <==> lo <= i < hi
    decreases hi - lo
  {
    if lo == hi then {} else {lo} + Range(lo + 1, hi)
  }

  lemma SubsetSize(a: set<nat>, b: set<nat>)
    requires a <= b
    ensures |a| <= |b|
  {
    assert b == a + (b - a);
  }

  /** Looking at the newest `cnt` times is as good as searching the whole history. */
  lemma WindowAgreesWithHistory(times: seq<int>, cnt: nat, interval: int)
    requires cnt >= 1 && Sorted(times)
    ensures Burst(times, cnt, interval) <==> WindowBurst(times, cnt, interval)
  {
    var n := |times|;
    if WindowBurst(times, cnt, interval) {
      assert IsBurst(Range(n - cnt, n), times, cnt, interval);
    }
    if Burst(times, cnt, interval) {
      var picked: set<nat> :| IsBurst(picked, times, cnt, interval);
      SubsetSize(picked, Range(0, n));
      if forall i :: i in picked ==> i > n - cnt {
        SubsetSize(picked, Range(n - cnt + 1, n));
        assert false;
      }
      var i :| i in picked && i <= n - cnt;
      assert times[n - 1] - times[i] <= interval;
    }
  }

  /** A down event is reported when its interface has gone down often enough, recently enough. */
  predicate Reports(history: seq<Event>, cnt: nat, interval: int) {
    && history != []
    && history[|history| - 1].Down?
    && WindowBurst(Times(history, history[|history| - 1].ifname), cnt, interval)
  }

  predicate Ordered(history: seq<Event>) {
    forall i, j :: 0 <= i <= j < |history| && history[i].Down? && history[j].Down? ==> history[i].time <= history[j].time
  }

  lemma {:induction false} TimesAreSorted(history: seq<Event>, ifname: string)
    requires Ordered(history)
    ensures Sorted(Times(history, ifname))
    ensures forall t :: t in Times(history, ifname) ==> exists e :: e in history && e.Down? && e.time == t
  {
    if history != [] {
      var before := history[..|history| - 1];
      TimesAreSorted(before, ifname);
      assert forall e :: e in before ==> e in history;
      var e := history[|history| - 1];
      if e.Down? && e.ifname == ifname {
        var ts := Times(before, ifname);
        forall i | 0 <= i < |ts| ensures ts[i] <= e.time
        {
          assert ts[i] in ts;
          var d :| d in before && d.Down? && d.time == ts[i];
        }
      }
    }
  }

  /**
    With clock readings that never go back, a down event is reported if and only if some `cnt`
    down events of its interface in the whole history, itself included, lie within `interval`.
   */
  lemma ReportsExactlyBursts(history: seq<Event>, cnt: nat, interval: int)
    requires cnt >= 1 && Ordered(history) && history != [] && history[|history| - 1].Down?
    ensures Reports(history, cnt, interval) <==>
              Burst(Times(history, history[|history| - 1].ifname), cnt, interval)
  {
    TimesAreSorted(history, history[|history| - 1].ifname);
    WindowAgreesWithHistory(Times(history, history[|history| - 1].ifname), cnt, interval);
  }

  /** The events of one interface. */
  function Only(history: seq<Event>, ifname: string): seq<Event> {
    if history == [] then []
    else
      var e := history[|history| - 1];
      Only(history[..|history| - 1], ifname) + (if e.Down? && e.ifname == ifname then [e] else [])
  }

  /** What other interfaces do has no influence on an interface's times, hence on its reports. */
  lemma {:induction false} InterfacesAreIndependent(a: seq<Event>, b: seq<Event>, ifname: string)
    requires Only(a, ifname) == Only(b, ifname)
    ensures Times(a, ifname) == Times(b, ifname)
  {
    TimesOfOnly(a, ifname);
    TimesOfOnly(b, ifname);
  }

  lemma {:induction false} TimesOfOnly(history: seq<Event>, ifname: string)
    ensures Times(Only(history, ifname), ifname) == Times(history, ifname)
  {
    if history != [] {
      var before := history[..|history| - 1];
      var e := history[|history| - 1];
      TimesOfOnly(before, ifname);
      if e.Down? && e.ifname == ifname {
        assert Only(history, ifname)[..|Only(before, ifname)|] == Only(before, ifname);
      } else {
        assert Only(history, ifname) == Only(before, ifname);
      }
    }
  }

  lemma TimesSnoc(history: seq<Event>, e: Event, ifname: string)
    ensures Times(history + [e], ifname) ==
              Times(history, ifname) + (if e.Down? && e.ifname == ifname then [e.time] else [])
  {
    assert (history + [e])[..|history|] == history;
  }

  lemma LastNSnoc(s: seq<int>, x: int, n: nat)
    requires n >= 1
    ensures LastN(LastN(s, n) + [x], n) == LastN(s + [x], n)
  {
  }

  /** Pops the oldest times until at most n are left. */
  method Trim(times: seq<int>, n: nat) returns (lst: seq<int>)
    ensures lst == LastN(times, n)
  {
    lst := times;
    while |lst| > n
      invariant |lst| <= |times| && lst == times[|times| - |lst|..]
      invariant |times| <= n ==> lst == times
      invariant |times| > n ==> |lst| >= n
    {
      lst := lst[1..];
    }
  }

  type Windows = map<string, seq<int>>

  /** The window of an interface holds its newest times, at most cnt of them. */
  ghost predicate TracksOne(flaps: Windows, history: seq<Event>, cnt: nat, ifname: string) {
    if ifname in flaps then Times(history, ifname) != [] && flaps[ifname] == LastN(Times(history, ifname), cnt)
    else Times(history, ifname) == []
  }

  ghost predicate Tracks(flaps: Windows, history: seq<Event>, cnt: nat) {
    forall i :: TracksOne(flaps, history, cnt, i)
  }

  lemma OtherEventTracks(flaps: Windows, history: seq<Event>, cnt: nat)
    requires Tracks(flaps, history, cnt)
    ensures Tracks(flaps, history + [OtherEvent], cnt)
  {
    forall i ensures TracksOne(flaps, history + [OtherEvent], cnt, i)
    {
      assert TracksOne(flaps, history, cnt, i);
      TimesSnoc(history, OtherEvent, i);
    }
  }

  /** The window after one more down event of its interface. */
  function Window(flaps: Windows, cnt: nat, ifname: string, time: int): seq<int> {
    LastN((if ifname in flaps then flaps[ifname] else []) + [time], cnt)
  }

  lemma DownTracks(flaps: Windows, history: seq<Event>, cnt: nat, ifname: string, time: int)
    requires cnt >= 1 && Tracks(flaps, history, cnt)
    ensures var h := history + [Down(ifname, time)];
            && Tracks(flaps[ifname := Window(flaps, cnt, ifname, time)], h, cnt)
            && Window(flaps, cnt, ifname, time) == LastN(Times(h, ifname), cnt)
  {
    var e := Down(ifname, time);
    var flaps' := flaps[ifname := Window(flaps, cnt, ifname, time)];
    forall i ensures TracksOne(flaps', history + [e], cnt, i)
    {
      assert TracksOne(flaps, history, cnt, i);
      TimesSnoc(history, e, i);
      LastNSnoc(Times(history, i), time, cnt);
    }
    assert TracksOne(flaps', history + [e], cnt, ifname);
  }

  /** The window shows whether the event just recorded is to be reported. */
  lemma WindowDecides(history: seq<Event>, cnt: nat, interval: int, ifname: string, time: int)
    requires cnt >= 1
    ensures var h := history + [Down(ifname, time)];
            var lst := LastN(Times(h, ifname), cnt);
            && (Reports(h, cnt, interval) <==> |lst| == cnt && lst[|lst| - 1] - lst[0] <= interval)
            && (|lst| == cnt ==> lst[|lst| - 1] - lst[0] == Span(Times(h, ifname), cnt))
  {
  }

  class Detector {
    const flapInt: int
    const flapCnt: nat
    var flaps: map<string, seq<int>>
    var beats: nat // heartbeats sent through the callback
    ghost var history: seq<Event>

    constructor (flapInt: int, flapCnt: nat)
      requires flapCnt >= 1
      ensures Valid() && history == [] && this.flapInt == flapInt && this.flapCnt == flapCnt
    {
      this.flapInt, this.flapCnt := flapInt, flapCnt;
      flaps, beats, history := map[], 0, [];
    }

    ghost predicate Valid()
      reads this
    {
      flapCnt >= 1 && Tracks(flaps, history, flapCnt)
    }

    /** Appends the time of a down event and pops the oldest ones over the limit. */
    method Record(ifname: string, time: int) returns (lst: seq<int>)
      requires Valid()
      modifies this`flaps, this`history
      ensures Valid() && history == old(history) + [Down(ifname, time)]
      ensures lst == LastN(Times(history, ifname), flapCnt)
    {
      DownTracks(flaps, history, flapCnt, ifname, time);
      lst := if ifname in flaps then flaps[ifname] else [];
      lst := Trim(lst + [time], flapCnt);
      flaps := flaps[ifname := lst];
      history := history + [Down(ifname, time)];
    }

    /** One event of `request`: a report, or a heartbeat. */
    method Receive(e: Event) returns (report: Option<Report>)
      requires Valid()
      modifies this
      ensures Valid() && history == old(history) + [e]
      ensures report.Some? <==> Reports(history, flapCnt, flapInt)
      ensures report.Some? ==>
                e.Down? && report.value == Report(e.ifname, Span(Times(history, e.ifname), flapCnt), flapCnt)
      ensures beats == old(beats) + (if report.Some? then 0 else 1)
    {
      match e {
        case Down(ifname, time) =>
          WindowDecides(history, flapCnt, flapInt, ifname, time);
          var lst := Record(ifname, time);
          if |lst| == flapCnt {
            var interval := lst[|lst| - 1] - lst[0];
            if interval <= flapInt {
              return Some(Report(ifname, interval, flapCnt));
            }
          }
        case OtherEvent =>
          OtherEventTracks(flaps, history, flapCnt);
          history := history + [e];
      }
      beats := beats + 1;
      return None;
    }

    /**
      `request`: reads events until one is to be reported.  `used` counts the events read; without
      a report all of them were, and then the shutdown flag ends the loop.
     */
    method Request(events: seq<Event>) returns (used: nat, report: Option<Report>)
      requires Valid()
      modifies this
      ensures Valid() && used <= |events| && history == old(history) + events[..used]
      ensures report.None? ==> used == |events|
      ensures report.Some? ==>
                && used > 0
                && events[used - 1].Down?
                && Reports(history, flapCnt, flapInt)
                && report.value.ifname == events[used - 1].ifname
                && report.value.duration == Span(Times(history, report.value.ifname), flapCnt)
                && report.value.cnt == flapCnt
      ensures forall k :: 1 <= k <= used && (report.Some? ==> k < used) ==> !Reports(old(history) + events[..k], flapCnt, flapInt)
      ensures beats == old(beats) + used - (if report.Some? then 1 else 0)
    {
      used := 0;
      while used < |events|
        invariant used <= |events|
        invariant Valid() && history == old(history) + events[..used]
        invariant forall k :: 1 <= k <= used ==> !Reports(old(history) + events[..k], flapCnt, flapInt)
        invariant beats == old(beats) + used
      {
        assert old(history) + events[..used] + [events[used]] == old(history) + events[..used + 1];
        report := Receive(events[used]);
        used := used + 1;
        if report.Some? {
          return;
        }
      }
      return used, None;
    }
  }
}
