/** What the probe sends, what it looks for, and the pure specification of
    its two read loops: the drain that throws queued input away, and the
    scan that accumulates the reply until the marker shows up or the
    deadline passes. */
module Scanning {
  import opened Device

  /** ESC _ G i = 3 1 ; : the start of a graphics-protocol reply about image 31. */
  const Marker: seq<byte> := [0x1b, 0x5f, 0x47, 0x69, 0x3d, 0x33, 0x31, 0x3b]

  /** ESC _ G i=31,s=1,v=1,a=q,t=d,f=24;AAAA ESC \ followed by ESC [ c:
      a query-only transmission of a 1x1 RGB image, then a primary
      device-attributes request. */
  const Query: seq<byte> :=
    [0x1b, 0x5f, 0x47, 0x69, 0x3d, 0x33, 0x31, 0x2c,  // ESC _ G i = 3 1 ,
     0x73, 0x3d, 0x31, 0x2c,                          // s = 1 ,
     0x76, 0x3d, 0x31, 0x2c,                          // v = 1 ,
     0x61, 0x3d, 0x71, 0x2c,                          // a = q ,
     0x74, 0x3d, 0x64, 0x2c,                          // t = d ,
     0x66, 0x3d, 0x32, 0x34, 0x3b,                    // f = 2 4 ;
     0x41, 0x41, 0x41, 0x41,                          // A A A A
     0x1b, 0x5c,                                      // ESC \
     0x1b, 0x5b, 0x63]                                // ESC [ c

  /** The poll sleep of 10 ms, in clock ticks. */
  const PollTicks: nat := 1

  // ---------------------------------------------------------------------
  // Substring test

  /** `pat` sits in `s` starting at index `i`. */
  ghost predicate MatchesAt(pat: seq<byte>, s: seq<byte>, i: int)
  {
    0 <= i && i + |pat| <= |s| && s[i..i + |pat|] == pat
  }

  /** `pat` occurs somewhere in `s`. */
  ghost predicate Occurs(pat: seq<byte>, s: seq<byte>)
  {
    exists i :: MatchesAt(pat, s, i)
  }

  /** Past a mismatch at the head, an occurrence can only be further on. */
  lemma OccursLater(pat: seq<byte>, s: seq<byte>)
    requires |pat| <= |s| && s[..|pat|] != pat
    ensures Occurs(pat, s) <==> Occurs(pat, s[1..])
  {
    if Occurs(pat, s) {
      var i :| MatchesAt(pat, s, i);
      assert i != 0;
      assert s[1..][i - 1..i - 1 + |pat|] == s[i..i + |pat|];
      assert MatchesAt(pat, s[1..], i - 1);
    }
    if Occurs(pat, s[1..]) {
      var i :| MatchesAt(pat, s[1..], i);
      assert s[i + 1..i + 1 + |pat|] == s[1..][i..i + |pat|];
      assert MatchesAt(pat, s, i + 1);
    }
  }

  /** An occurrence survives bytes appended after it. */
  lemma OccursExtend(pat: seq<byte>, s: seq<byte>, t: seq<byte>)
    requires Occurs(pat, s)
    ensures Occurs(pat, s + t)
  {
    var i :| MatchesAt(pat, s, i);
    assert (s + t)[i..i + |pat|] == s[i..i + |pat|];
    assert MatchesAt(pat, s + t, i);
  }

  /** `pat` occurs between any bytes that surround it. */
  lemma OccursInside(pat: seq<byte>, pre: seq<byte>, post: seq<byte>)
    ensures Occurs(pat, pre + pat + post)
  {
    var s := pre + pat + post;
    assert s[|pre|..|pre| + |pat|] == pat;
    assert MatchesAt(pat, s, |pre|);
  }

  /** Python's `pat in s` on bytes. */
  function Contains(pat: seq<byte>, s: seq<byte>): (r: bool)
    ensures r <==> Occurs(pat, s)
    decreases |s|
  {
    if |s| < |pat| then false
    else if s[..|pat|] == pat then
      assert MatchesAt(pat, s, 0);
      true
    else
      OccursLater(pat, s);
      Contains(pat, s[1..])
  }

  /** An echo of the query is not mistaken for a reply: the query's
      graphics command carries `i=31,` where the reply has `i=31;`. */
  lemma QueryLacksMarker()
    ensures !Occurs(Marker, Query)
  {
    forall i | 0 <= i <= |Query| - |Marker|
      ensures !MatchesAt(Marker, Query, i)
    {
      QueryLacksMarkerAt(i);
    }
  }

  lemma QueryLacksMarkerAt(i: int)
    requires 0 <= i <= |Query| - |Marker|
    ensures !MatchesAt(Marker, Query, i)
  {
    if i == 0 {
      assert Query[7] == 0x2c;
      assert Query[i..i + |Marker|][7] == Query[7];
    } else {
      assert Query[i..i + |Marker|][0] == Query[i];
      assert Query[i] != 0x1b;
    }
  }

  // ---------------------------------------------------------------------
  // Bytes read

  /** The bytes one read brings. */
  function Payload(o: ReadOutcome): seq<byte>
  {
    if o.Data? then o.bytes else []
  }

  /** All bytes a run of reads brings, in order. */
  function Flatten(q: seq<ReadOutcome>): seq<byte>
  {
    if q == [] then [] else Payload(q[0]) + Flatten(q[1..])
  }

  lemma {:induction false} FlattenAppend(x: seq<ReadOutcome>, y: seq<ReadOutcome>)
    ensures Flatten(x + y) == Flatten(x) + Flatten(y)
    decreases |x|
  {
    if x == [] {
      assert x + y == y;
    } else {
      assert (x + y)[1..] == x[1..] + y;
      FlattenAppend(x[1..], y);
    }
  }

  /** The number of stalls (empty reads and errors) in `q`. */
  function Stalls(q: seq<ReadOutcome>): nat
  {
    if q == [] then 0 else (if IsStall(q[0]) then 1 else 0) + Stalls(q[1..])
  }

  // ---------------------------------------------------------------------
  // The drain

  /** What is left of the queue after the drain loop: the loop reads until
      the first read that brings no bytes, and consumes that one too. */
  function AfterDrain(q: seq<ReadOutcome>): (r: seq<ReadOutcome>)
    ensures |r| <= |q|
    decreases |q|
  {
    if q == [] then []
    else if IsStall(q[0]) then q[1..]
    else AfterDrain(q[1..])
  }

  /** The drain leaves a suffix of the queue: it consumed every entry up to
      and including the first stall, and none before that was a stall; if
      nothing is left, the script may have run dry. */
  lemma {:induction false} DrainStopsAtFirstStall(q: seq<ReadOutcome>)
    ensures var r := AfterDrain(q);
            r == q[|q| - |r|..] &&
            (forall i :: 0 <= i < |q| - |r| - 1 ==> !IsStall(q[i])) &&
            (r != [] ==> IsStall(q[|q| - |r| - 1]))
    decreases |q|
  {
    if q != [] && !IsStall(q[0]) {
      DrainStopsAtFirstStall(q[1..]);
      var r := AfterDrain(q);
      assert q[1..][|q| - 1 - |r|..] == q[|q| - |r|..];
      forall i | 0 <= i < |q| - |r| - 1
        ensures !IsStall(q[i])
      {
        if i > 0 {
          assert q[i] == q[1..][i - 1];
        }
      }
    }
  }

  /** The calls the drain loop makes: a read per consumed entry, plus the
      EAGAIN read of an exhausted script. */
  function DrainTrace(q: seq<ReadOutcome>): (ev: seq<Event>)
    ensures |ev| > 0
    ensures forall i :: 0 <= i < |ev| ==> ev[i].ReadDone?
    decreases |q|
  {
    if q == [] then [ReadDone(OsError)]
    else if IsStall(q[0]) then [ReadDone(q[0])]
    else [ReadDone(q[0])] + DrainTrace(q[1..])
  }

  /** The drain only reads: one read per entry it consumes, and one more
      when the script runs dry. */
  lemma {:induction false} DrainOnlyReads(q: seq<ReadOutcome>)
    ensures Passive(DrainTrace(q))
    ensures forall i :: 0 <= i < |DrainTrace(q)| ==> DrainTrace(q)[i].ReadDone?
    ensures |DrainTrace(q)| == |q| - |AfterDrain(q)| + (if Stalls(q) == 0 then 1 else 0)
    decreases |q|
  {
    if q != [] && !IsStall(q[0]) {
      DrainOnlyReads(q[1..]);
    }
  }

  /** Bytes queued before the probe, even a complete marker, are thrown
      away as long as a stall follows them. */
  lemma {:induction false} DrainDiscardsStaleInput(stale: seq<ReadOutcome>, stop: ReadOutcome,
                                                   rest: seq<ReadOutcome>)
    requires forall i :: 0 <= i < |stale| ==> !IsStall(stale[i])
    requires IsStall(stop)
    ensures AfterDrain(stale + [stop] + rest) == rest
    decreases |stale|
  {
    if stale == [] {
      assert stale + [stop] + rest == [stop] + rest;
      assert ([stop] + rest)[1..] == rest;
    } else {
      assert (stale + [stop] + rest)[1..] == stale[1..] + [stop] + rest;
      DrainDiscardsStaleInput(stale[1..], stop, rest);
    }
  }

  // ---------------------------------------------------------------------
  // The scan

  /** The state the scan loop works on: the reads still scripted, the
      reply buffer, the ticks gone since the loop started, and the calls
      made on the device so far. */
  datatype ScanState = ScanState(input: seq<ReadOutcome>, response: seq<byte>,
                                 elapsed: int, log: seq<Event>)

  /** The state the scan loop starts from on input `q`, before any call. */
  function Start(q: seq<ReadOutcome>): ScanState
  {
    ScanState(q, [], 0, [])
  }

  /** The state after one round, and whether that round found the marker. */
  datatype Round = Round(found: bool, next: ScanState)

  /** One round of the scan loop: the read, then either the append and the
      marker test, or the poll sleep after a read that brings nothing or
      raises. */
  ghost function Poll(s: ScanState): (p: Round)
    ensures |p.next.input| <= |s.input|
    ensures s.input != [] ==> p.next.input == s.input[1..]
    ensures |p.next.input| == |s.input| ==> p.next.elapsed == s.elapsed + PollTicks
  {
    if s.input == [] then
      Round(false, s.(elapsed := s.elapsed + PollTicks,
                      log := s.log + [ReadDone(OsError)] + [Slept(PollTicks)]))
    else if IsStall(s.input[0]) then
      Round(false, s.(input := s.input[1..], elapsed := s.elapsed + PollTicks,
                      log := s.log + [ReadDone(s.input[0])] + [Slept(PollTicks)]))
    else
      var grown := s.response + s.input[0].bytes;
      Round(Occurs(Marker, grown),
            s.(input := s.input[1..], response := grown, log := s.log + [ReadDone(s.input[0])]))
  }

  /** The scan loop from `s`: while `elapsed < timeout` it plays a round,
      and it stops at the round that finds the marker. */
  ghost function Scan(s: ScanState, timeout: int): (r: Round)
    ensures s.elapsed <= r.next.elapsed && |r.next.input| <= |s.input|
    decreases |s.input|, timeout - s.elapsed
  {
    if s.elapsed >= timeout then Round(false, s)
    else
      var p := Poll(s);
      if p.found then p else Scan(p.next, timeout)
  }

  /** The calls the scan makes do not depend on those made before it: a
      scan started after `pre` ends with `pre` followed by its own calls. */
  lemma {:induction false} ScanAfter(s: ScanState, pre: seq<Event>, timeout: int)
    ensures var r := Scan(s, timeout);
            Scan(s.(log := pre + s.log), timeout) == Round(r.found, r.next.(log := pre + r.next.log))
    decreases |s.input|, timeout - s.elapsed
  {
    if s.elapsed < timeout {
      var p := Poll(s);
      PollAfter(s, pre);
      if !p.found {
        ScanAfter(p.next, pre, timeout);
      }
    }
  }

  lemma PollAfter(s: ScanState, pre: seq<Event>)
    ensures var p := Poll(s);
            Poll(s.(log := pre + s.log)) == Round(p.found, p.next.(log := pre + p.next.log))
  {
  }

  /** A reply is only reported before the deadline, and only when the
      buffer holds the marker. */
  lemma {:induction false} ScanReportsOnlyMarker(s: ScanState, timeout: int)
    ensures var r := Scan(s, timeout);
            r.found ==> r.next.elapsed < timeout && Occurs(Marker, r.next.response)
    decreases |s.input|, timeout - s.elapsed
  {
    if s.elapsed < timeout && !Poll(s).found {
      ScanReportsOnlyMarker(Poll(s).next, timeout);
    }
  }

  /** The scan only reads and sleeps. */
  lemma {:induction false} ScanOnlyReadsAndSleeps(s: ScanState, timeout: int)
    requires Passive(s.log)
    ensures Passive(Scan(s, timeout).next.log)
    decreases |s.input|, timeout - s.elapsed
  {
    if s.elapsed < timeout {
      var p := Poll(s);
      assert Passive(p.next.log);
      if !p.found {
        ScanOnlyReadsAndSleeps(p.next, timeout);
      }
    }
  }

  /** The scan consumes reads from the front of the script and leaves the
      ones it did not get to as they were. */
  lemma {:induction false} ScanLeavesRest(s: ScanState, timeout: int)
    ensures var r := Scan(s, timeout);
            r.next.input == s.input[|s.input| - |r.next.input|..]
    decreases |s.input|, timeout - s.elapsed
  {
    if s.elapsed < timeout && s.input != [] && !Poll(s).found {
      var rest := Scan(Poll(s).next, timeout).next.input;
      ScanLeavesRest(Poll(s).next, timeout);
      assert s.input[1..][|s.input| - 1 - |rest|..] == s.input[|s.input| - |rest|..];
    } else if s.elapsed < timeout && s.input == [] {
      ScanLeavesRest(Poll(s).next, timeout);
    }
  }

  /** The buffer only grows, and by exactly the bytes of the reads the scan
      consumed, in order; nothing else enters it. */
  lemma {:induction false} ScanBuffersWhatItReads(s: ScanState, timeout: int)
    ensures var r := Scan(s, timeout);
            r.next.response == s.response + Flatten(s.input[..|s.input| - |r.next.input|])
    decreases |s.input|, timeout - s.elapsed
  {
    var q := s.input;
    if s.elapsed >= timeout {
      assert q[..0] == [];
    } else if q == [] {
      ScanBuffersWhatItReads(Poll(s).next, timeout);
    } else {
      var p := Poll(s);
      assert p.next.response == s.response + Payload(q[0]);
      if p.found {
        FlattenStep(q, 1);
        assert q[1..][..0] == [];
      } else {
        var r := Scan(p.next, timeout);
        assert Scan(s, timeout) == r;
        var n := |q| - |r.next.input|;
        ScanBuffersWhatItReads(p.next, timeout);
        FlattenStep(q, n);
        var later := Flatten(q[1..][..n - 1]);
        assert s.response + Payload(q[0]) + later == s.response + (Payload(q[0]) + later);
      }
    }
  }

  /** Without the marker the scan gives up exactly at the deadline (at once
      if it has already passed). */
  lemma {:induction false} ScanGivesUpAtDeadline(s: ScanState, timeout: int)
    ensures var r := Scan(s, timeout);
            !r.found ==> r.next.elapsed == if s.elapsed < timeout then timeout else s.elapsed
    decreases |s.input|, timeout - s.elapsed
  {
    if s.elapsed < timeout && !Poll(s).found {
      ScanGivesUpAtDeadline(Poll(s).next, timeout);
    }
  }

  lemma FlattenStep(q: seq<ReadOutcome>, n: nat)
    requires 0 < n <= |q|
    ensures Flatten(q[..n]) == Payload(q[0]) + Flatten(q[1..][..n - 1])
  {
    assert q[..n][1..] == q[1..][..n - 1];
  }

  /** The reads the scan gets to make with `budget` ticks left: each entry
      is read while the stalls before it have not used up the budget. */
  function Window(q: seq<ReadOutcome>, budget: int): (w: seq<ReadOutcome>)
    ensures |w| <= |q| && w == q[..|w|]
    ensures forall i :: 0 <= i < |w| ==> Stalls(q[..i]) * PollTicks < budget
    ensures |w| < |q| ==> Stalls(q[..|w|]) * PollTicks >= budget
    decreases |q|
  {
    if q == [] || budget <= 0 then
      assert q[..0] == [];
      []
    else
      var later := Window(q[1..], if IsStall(q[0]) then budget - PollTicks else budget);
      StallsStep(q, later);
      [q[0]] + later
  }

  /** The budget bookkeeping of one step of Window. */
  lemma StallsStep(q: seq<ReadOutcome>, later: seq<ReadOutcome>)
    requires q != [] && |later| <= |q| - 1 && later == q[1..][..|later|]
    ensures [q[0]] + later == q[..|later| + 1]
    ensures forall i :: 0 < i <= |later| + 1 && i <= |q| ==>
              Stalls(q[..i]) == (if IsStall(q[0]) then 1 else 0) + Stalls(q[1..][..i - 1])
    ensures Stalls(q[..0]) == 0
  {
    forall i | 0 < i <= |later| + 1 && i <= |q|
      ensures Stalls(q[..i]) == (if IsStall(q[0]) then 1 else 0) + Stalls(q[1..][..i - 1])
    {
      assert q[..i][1..] == q[1..][..i - 1];
    }
    assert q[..0] == [];
  }

  /** The scan reports the reply exactly when the marker occurs in the bytes
      of the reads made before the deadline, wherever it sits in them and
      however many reads it is split across. */
  lemma {:induction false} ScanMatchesWindow(s: ScanState, timeout: int)
    requires !Occurs(Marker, s.response)
    ensures Scan(s, timeout).found <==>
            Occurs(Marker, s.response + Flatten(Window(s.input, timeout - s.elapsed)))
    decreases |s.input|, timeout - s.elapsed
  {
    var q, response, elapsed := s.input, s.response, s.elapsed;
    if elapsed >= timeout {
      assert response + Flatten(Window(q, timeout - elapsed)) == response;
    } else if q == [] {
      ScanMatchesWindow(Poll(s).next, timeout);
      assert response + Flatten(Window(q, timeout - elapsed)) == response;
      assert response + Flatten(Window(q, timeout - (elapsed + PollTicks))) == response;
    } else if IsStall(q[0]) {
      ScanMatchesWindow(Poll(s).next, timeout);
      var w := Window(q[1..], timeout - (elapsed + PollTicks));
      assert Window(q, timeout - elapsed) == [q[0]] + w;
      assert ([q[0]] + w)[1..] == w;
      assert Flatten([q[0]] + w) == Flatten(w);
    } else {
      var grown := response + q[0].bytes;
      var later := Flatten(Window(q[1..], timeout - elapsed));
      assert Window(q, timeout - elapsed) == [q[0]] + Window(q[1..], timeout - elapsed);
      assert response + (q[0].bytes + later) == grown + later;
      if Occurs(Marker, grown) {
        OccursExtend(Marker, grown, later);
      } else {
        ScanMatchesWindow(Poll(s).next, timeout);
      }
    }
  }

  /** The scan returns on the very read that completes the marker: the
      bytes read up to the one before it do not hold the marker yet. */
  lemma {:induction false} ScanStopsAtFirstMatch(s: ScanState, timeout: int)
    requires !Occurs(Marker, s.response)
    ensures var r := Scan(s, timeout);
            var n := |s.input| - |r.next.input|;
            r.found ==> n > 0 && !IsStall(s.input[n - 1]) &&
                        !Occurs(Marker, s.response + Flatten(s.input[..n - 1]))
    decreases |s.input|, timeout - s.elapsed
  {
    var q := s.input;
    if s.elapsed < timeout {
      var p := Poll(s);
      if q == [] {
        ScanStopsAtFirstMatch(p.next, timeout);
      } else if p.found {
        assert q[..0] == [];
        assert s.response + Flatten(q[..0]) == s.response;
      } else {
        var r := Scan(p.next, timeout);
        ScanStopsAtFirstMatch(p.next, timeout);
        if r.found {
          LaterFirstMatch(q, s.response, p.next.response, |q| - 1 - |r.next.input|);
        }
      }
    }
  }

  /** Bytes that never hold the marker never make the scan report it. */
  lemma NoMarkerNoReply(q: seq<ReadOutcome>, timeout: int)
    requires !Occurs(Marker, Flatten(q))
    ensures !Scan(Start(q), timeout).found
  {
    var w := Window(q, timeout);
    assert !Occurs(Marker, []);
    ScanMatchesWindow(Start(q), timeout);
    assert [] + Flatten(w) == Flatten(w);
    assert q == w + q[|w|..];
    FlattenAppend(w, q[|w|..]);
    if Occurs(Marker, Flatten(w)) {
      OccursExtend(Marker, Flatten(w), Flatten(q[|w|..]));
    }
  }

  /** One step of ScanStopsAtFirstMatch: a first match found `m` reads into
      `q[1..]` is a first match `m + 1` reads into `q`. */
  lemma LaterFirstMatch(q: seq<ReadOutcome>, response: seq<byte>, grown: seq<byte>, m: nat)
    requires 0 < m < |q| && grown == response + Payload(q[0])
    requires !IsStall(q[1..][m - 1]) && !Occurs(Marker, grown + Flatten(q[1..][..m - 1]))
    ensures !IsStall(q[m]) && !Occurs(Marker, response + Flatten(q[..m]))
  {
    assert q[m] == q[1..][m - 1];
    FlattenStep(q, m);
    assert response + Flatten(q[..m]) == grown + Flatten(q[1..][..m - 1]);
  }
}
