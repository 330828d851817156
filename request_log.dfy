/**
 * The request log of src/WsApp.tsx: `addToLog` puts each refresh request at the
 * front of an immutable list and keeps at most `MAX_LOG_ITEMS` lines.
 */
module RequestLog {

  const MAX_LOG_ITEMS: nat := 100

  /** A `cr:req` event from the server. */
  datatype Request = Request(index: int, url: string)

  /** One log line, `<ISO time> <index> <url>`, kept as its three parts. */
  datatype Line = Line(time: string, index: int, url: string)

  /** The line logged for `r` at the clock reading `time`. */
  function LineFor(time: string, r: Request): Line {
    Line(time, r.index, r.url)
  }

  /** A request as it reaches `addToLog`, with the clock reading `new Date()` gives it. */
  datatype Event = Event(time: string, req: Request)

  /** The state updater of `addToLog`: `unshift` the request's line, then `pop` when over the cap. */
  function AddToLog(prev: seq<Line>, time: string, r: Request): (next: seq<Line>)
    ensures |next| >= 1 && next[0] == LineFor(time, r)
    ensures |prev| < MAX_LOG_ITEMS ==> |next| == |prev| + 1 && next[1..] == prev
    ensures |prev| >= MAX_LOG_ITEMS ==> |next| == |prev| && next[1..] == prev[..|prev| - 1]
  {
    var next := [LineFor(time, r)] + prev;
    if |next| > MAX_LOG_ITEMS then next[..|next| - 1] else next
  }

  /** A log within the cap stays within the cap; the older lines keep their order behind the new one. */
  lemma AddToLogBounded(prev: seq<Line>, time: string, r: Request)
    requires |prev| <= MAX_LOG_ITEMS
    ensures |AddToLog(prev, time, r)| <= MAX_LOG_ITEMS
    ensures AddToLog(prev, time, r)[1..] <= prev
  {
  }

  /** The lines logged for `events`, oldest first. */
  function Lines(events: seq<Event>): seq<Line> {
    seq(|events|, i requires 0 <= i < |events| => LineFor(events[i].time, events[i].req))
  }

  /** The log after `addToLog` was called for `events` one after the other, oldest first. */
  function Replay(log: seq<Line>, events: seq<Event>): seq<Line>
    decreases |events|
  {
    if events == [] then log
    else
      var e := events[|events| - 1];
      AddToLog(Replay(log, events[..|events| - 1]), e.time, e.req)
  }

  function Reversed(s: seq<Line>): (r: seq<Line>)
    ensures |r| == |s|
  {
    if s == [] then [] else Reversed(s[1..]) + [s[0]]
  }

  lemma {:induction false} ReversedAt(s: seq<Line>, i: nat)
    requires i < |s|
    ensures Reversed(s)[i] == s[|s| - 1 - i]
  {
    if i < |s| - 1 {
      ReversedAt(s[1..], i);
    }
  }

  lemma {:induction false} ReversedSnoc(s: seq<Line>, x: Line)
    ensures Reversed(s + [x]) == [x] + Reversed(s)
  {
    if s != [] {
      assert (s + [x])[1..] == s[1..] + [x];
      ReversedSnoc(s[1..], x);
    }
  }

  /** The reference log: the newest `MAX_LOG_ITEMS` lines, newest first. */
  function Newest(lines: seq<Line>): (r: seq<Line>)
    ensures |r| == if |lines| < MAX_LOG_ITEMS then |lines| else MAX_LOG_ITEMS
  {
    var keep := if |lines| < MAX_LOG_ITEMS then |lines| else MAX_LOG_ITEMS;
    Reversed(lines[|lines| - keep..])
  }

  /** Line i of the reference log is the i-th newest line. */
  lemma NewestAt(lines: seq<Line>, i: nat)
    requires i < |Newest(lines)|
    ensures Newest(lines)[i] == lines[|lines| - 1 - i]
  {
    var keep := |Newest(lines)|;
    ReversedAt(lines[|lines| - keep..], i);
  }

  /** One call of `addToLog` on the reference log of some lines gives the reference log of those lines and the new one. */
  lemma {:induction false} PushIsNewest(lines: seq<Line>, time: string, r: Request)
    ensures AddToLog(Newest(lines), time, r) == Newest(lines + [LineFor(time, r)])
  {
    var x := LineFor(time, r);
    var all := lines + [x];
    if |lines| < MAX_LOG_ITEMS {
      assert all[0..] == all;
      assert lines[0..] == lines;
      ReversedSnoc(lines, x);
    } else {
      var t := lines[|lines| - MAX_LOG_ITEMS..];
      assert Newest(lines) == Reversed(t);
      assert all[|all| - MAX_LOG_ITEMS..] == t[1..] + [x];
      ReversedSnoc(t[1..], x);
      assert Reversed(t)[..|t| - 1] == Reversed(t[1..]);
    }
  }

  /** Starting from the empty log, `addToLog` always holds exactly the newest lines, newest first. */
  lemma {:induction false} ReplayIsNewest(events: seq<Event>)
    ensures Replay([], events) == Newest(Lines(events))
    decreases |events|
  {
    if events != [] {
      var n := |events| - 1;
      var e := events[n];
      ReplayIsNewest(events[..n]);
      PushIsNewest(Lines(events[..n]), e.time, e.req);
      assert Lines(events) == Lines(events[..n]) + [LineFor(e.time, e.req)];
    }
  }
}
