/** The probe `detect_kitty_graphics`: put the terminal into raw,
    non-blocking mode, throw away queued input, send the graphics query,
    scan the reply for the marker until the deadline, and put the saved
    attributes back on every way out. */
module CheckKitty {
  import opened Termios
  import opened Device
  import opened Scanning

  /** The exceptions that leave the probe. */
  datatype Error = NotATty | TcsetattrFailed(when: When) | FcntlFailed | WriteFailed | FlushFailed

  /** How a call of the probe ends: it returns a verdict or raises. */
  datatype Outcome = Returned(supported: bool) | Raised(error: Error)

  /** `set_nonblocking`: reads the file-status flags and writes them back
      with O_NONBLOCK or-ed in. */
  method SetNonblocking(t: Terminal) returns (ok: bool)
    requires t.Valid()
    modifies t`statusFlags, t`log
    ensures t.Valid()
    ensures ok <==> SetFlagsFails !in t.faults
    ensures t.statusFlags == if ok then WithNonblock(old(t.statusFlags)) else old(t.statusFlags)
    ensures ok ==> t.NonBlocking()
    ensures t.log == old(t.log) + [FlagsSet(WithNonblock(old(t.statusFlags)))]
  {
    var flags := t.GetFlags();
    ok := t.SetFlags(WithNonblock(flags));
  }

  /** The drain: read until a read brings nothing or raises. */
  method DrainInput(t: Terminal)
    requires t.Valid() && t.NonBlocking()
    modifies t`input, t`log
    ensures t.Valid()
    ensures t.input == AfterDrain(old(t.input))
    ensures t.log == old(t.log) + DrainTrace(old(t.input))
  {
    var more := true;
    while more
      invariant t.Valid() && t.NonBlocking()
      invariant more ==> AfterDrain(t.input) == AfterDrain(old(t.input))
      invariant more ==> t.log + DrainTrace(t.input) == old(t.log) + DrainTrace(old(t.input))
      invariant !more ==> t.input == AfterDrain(old(t.input))
      invariant !more ==> t.log == old(t.log) + DrainTrace(old(t.input))
      decreases |t.input| + (if more then 1 else 0)
    {
      var o := t.Read();
      more := !IsStall(o);
    }
  }

  /** One round of the scan loop: read; append what came and test the
      buffer for the marker, or sleep one poll interval when the read
      brought nothing or raised. */
  method PollOnce(t: Terminal, response: seq<byte>, ghost elapsed: int)
    returns (grown: seq<byte>, found: bool)
    requires t.Valid() && t.NonBlocking()
    modifies t`input, t`log, t`now
    ensures t.Valid() && t.NonBlocking()
    ensures var p := Poll(ScanState(old(t.input), response, elapsed, old(t.log)));
            found == p.found && grown == p.next.response && t.input == p.next.input &&
            t.now - old(t.now) == p.next.elapsed - elapsed && t.log == p.next.log
  {
    var o := t.Read();
    grown := response;
    found := false;
    if !IsStall(o) {
      grown := response + o.bytes;
      found := Contains(Marker, grown);
    } else {
      t.Sleep(PollTicks);
    }
  }

  /** The scan loop: while the deadline `timeout` ticks after its start has
      not passed, play a round; stop at the round that finds the marker. */
  method ScanForReply(t: Terminal, timeout: int) returns (found: bool)
    requires t.Valid() && t.NonBlocking()
    modifies t`input, t`log, t`now
    ensures t.Valid()
    ensures var r := Scan(Start(old(t.input)), timeout);
            found == r.found && t.input == r.next.input &&
            t.now == old(t.now) + r.next.elapsed && t.log == old(t.log) + r.next.log
  {
    var start := t.Time();
    var response: seq<byte> := [];
    var now := t.Time();
    var elapsed := now - start;
    ghost var whole := Scan(ScanState(t.input, response, elapsed, t.log), timeout);
    ScanAfter(Start(t.input), t.log, timeout);
    assert t.log + [] == t.log;
    while elapsed < timeout
      invariant t.Valid() && t.NonBlocking()
      invariant now == t.now && start == old(t.now) && elapsed == now - start
      invariant whole == Scan(ScanState(t.input, response, elapsed, t.log), timeout)
      decreases |t.input|, timeout - elapsed
    {
      var f;
      response, f := PollOnce(t, response, elapsed);
      if f {
        return true;
      }
      now := t.Time();
      elapsed := now - start;
    }
    return false;
  }

  // -----------------------------------------------------------------------
  // The `try` block and its specification

  /** The calls on the device after those in `log`, once the `try` block
      has run with the queue holding `q`, the status flags at `flags` and
      the calls in `faults` raising: it installs `raw`, goes non-blocking,
      drains, writes and flushes the query and scans, and stops at the
      first call that raises. */
  ghost function TryLog(raw: Attrs, flags: bv32, faults: set<Fault>, q: seq<ReadOutcome>,
                        timeout: int, log: seq<Event>): seq<Event>
  {
    var applied := log + [AttrsSet(TCSANOW, raw)];
    if SetAttrsFails(TCSANOW) in faults then applied else
    var nonblocking := applied + [FlagsSet(WithNonblock(flags))];
    if SetFlagsFails in faults then nonblocking else
    QueryLog(faults, AfterDrain(q), timeout, nonblocking + DrainTrace(q))
  }

  /** The calls on the device after those in `log` once the query has been
      written and flushed and the reply scanned for, with the queue holding
      `q` after the drain; the first call that raises ends them. */
  ghost function QueryLog(faults: set<Fault>, q: seq<ReadOutcome>, timeout: int,
                          log: seq<Event>): seq<Event>
  {
    var wrote := log + [Wrote(Query)];
    if WriteFails in faults then wrote else
    var flushed := wrote + [Flushed];
    if FlushFails in faults then flushed else flushed + Scan(Start(q), timeout).next.log
  }

  /** The raw copy is installed and the descriptor made non-blocking, so the
      drain runs. */
  predicate ReachesDrain(faults: set<Fault>)
  {
    SetAttrsFails(TCSANOW) !in faults && SetFlagsFails !in faults
  }

  /** How the `try` block ends: the first call that raises decides it;
      otherwise the scan's answer is returned. */
  ghost function TryOutcome(faults: set<Fault>, q: seq<ReadOutcome>, timeout: int): Outcome
  {
    if SetAttrsFails(TCSANOW) in faults then Raised(TcsetattrFailed(TCSANOW))
    else if SetFlagsFails in faults then Raised(FcntlFailed)
    else QueryOutcome(faults, AfterDrain(q), timeout)
  }

  /** How sending the query and scanning ends, with the queue holding `q`
      after the drain. */
  ghost function QueryOutcome(faults: set<Fault>, q: seq<ReadOutcome>, timeout: int): Outcome
  {
    if WriteFails in faults then Raised(WriteFailed)
    else if FlushFails in faults then Raised(FlushFailed)
    else Returned(Scan(Start(q), timeout).found)
  }

  /** The outcome of the whole probe on a terminal: a restore in the
      `finally` that raises replaces whatever the `try` block produced. */
  ghost function Verdict(faults: set<Fault>, q: seq<ReadOutcome>, timeout: int): Outcome
  {
    if SetAttrsFails(TCSADRAIN) in faults then Raised(TcsetattrFailed(TCSADRAIN))
    else TryOutcome(faults, q, timeout)
  }

  /** The end of the `try` block: write and flush the query, then scan
      for the reply. */
  method QueryAndScan(t: Terminal, timeout: int) returns (out: Outcome)
    requires t.Valid() && t.NonBlocking()
    modifies t`pending, t`output, t`log, t`input, t`now
    ensures t.Valid()
    ensures out == QueryOutcome(t.faults, old(t.input), timeout)
    ensures t.log == QueryLog(t.faults, old(t.input), timeout, old(t.log))
    ensures out.Returned? ==> t.output == old(t.output) + (old(t.pending) + Query) && t.pending == []
    ensures out.Returned? ==>
              var r := Scan(Start(old(t.input)), timeout);
              t.input == r.next.input && t.now == old(t.now) + r.next.elapsed
    // a raising write or flush stops before any read or sleep, with nothing delivered
    ensures out.Raised? ==> t.input == old(t.input) && t.now == old(t.now) && t.output == old(t.output)
    ensures out.Raised? ==>
              t.pending == if WriteFails in t.faults then old(t.pending) else old(t.pending) + Query
  {
    var wrote := t.Write(Query);
    if !wrote {
      return Raised(WriteFailed);
    }
    var flushed := t.Flush();
    if !flushed {
      return Raised(FlushFailed);
    }
    var found := ScanForReply(t, timeout);
    return Returned(found);
  }

  /** The `try` block of the probe: install `raw`, go non-blocking, drain,
      send the query, scan. */
  method TryProbe(t: Terminal, raw: Attrs, timeout: int) returns (out: Outcome)
    requires t.Valid() && WellFormed(raw)
    modifies t
    ensures t.Valid()
    ensures out == TryOutcome(t.faults, old(t.input), timeout)
    ensures t.log == TryLog(raw, old(t.statusFlags), t.faults, old(t.input), timeout, old(t.log))
    ensures t.attrs == if SetAttrsFails(TCSANOW) in t.faults then old(t.attrs) else raw
    ensures t.statusFlags ==
              if ReachesDrain(t.faults) then WithNonblock(old(t.statusFlags)) else old(t.statusFlags)
    ensures out.Returned? ==> t.output == old(t.output) + (old(t.pending) + Query) && t.pending == []
    ensures out.Returned? ==>
              var r := Scan(Start(AfterDrain(old(t.input))), timeout);
              t.input == r.next.input && t.now == old(t.now) + r.next.elapsed
    // on a raise nothing is delivered and no time passes; the drain has run
    // only if the descriptor was made non-blocking, the query is buffered only
    // if its write succeeded
    ensures out.Raised? ==> t.now == old(t.now) && t.output == old(t.output)
    ensures out.Raised? ==>
              t.input == if ReachesDrain(t.faults) then AfterDrain(old(t.input)) else old(t.input)
    ensures out.Raised? ==>
              t.pending == if ReachesDrain(t.faults) && WriteFails !in t.faults
                           then old(t.pending) + Query else old(t.pending)
  {
    var applied := t.SetAttrs(TCSANOW, raw);
    if !applied {
      return Raised(TcsetattrFailed(TCSANOW));
    }
    var nonblocking := SetNonblocking(t);
    if !nonblocking {
      return Raised(FcntlFailed);
    }
    DrainInput(t);
    out := QueryAndScan(t, timeout);
  }

  /** `detect_kitty_graphics(timeout)`, with the timeout in ticks. */
  method DetectKittyGraphics(t: Terminal, timeout: int) returns (out: Outcome)
    requires t.Valid()
    modifies t
    ensures t.Valid()
    // not a terminal: tcgetattr raises before anything is touched
    ensures !t.isTty ==> out == Raised(NotATty) && unchanged(t)
    ensures t.isTty ==> out == Verdict(t.faults, old(t.input), timeout)
    // the calls made: those of the `try` block with the raw copy, then the restore
    ensures t.isTty ==>
              t.log == TryLog(RawSettings(old(t.attrs)), old(t.statusFlags), t.faults,
                              old(t.input), timeout, old(t.log))
                       + [AttrsSet(TCSADRAIN, old(t.attrs))]
    ensures t.isTty && SetAttrsFails(TCSADRAIN) !in t.faults ==> t.attrs == old(t.attrs)
    ensures t.isTty && SetAttrsFails(TCSADRAIN) in t.faults ==>
              t.attrs == if SetAttrsFails(TCSANOW) in t.faults then old(t.attrs)
                         else RawSettings(old(t.attrs))
    // O_NONBLOCK is or-ed in and never cleared; no other status flag moves
    ensures t.statusFlags ==
              if t.isTty && ReachesDrain(t.faults) then WithNonblock(old(t.statusFlags))
              else old(t.statusFlags)
    // when the `try` block returns, the query went out, whole, after what was
    // pending, and the scan ran, whether or not the restore then raises
    ensures t.isTty && TryOutcome(t.faults, old(t.input), timeout).Returned? ==>
              t.output == old(t.output) + (old(t.pending) + Query) && t.pending == []
    ensures t.isTty && TryOutcome(t.faults, old(t.input), timeout).Returned? ==>
              var r := Scan(Start(AfterDrain(old(t.input))), timeout);
              t.input == r.next.input && t.now == old(t.now) + r.next.elapsed
    // when the `try` block raises, nothing is delivered and no time passes
    ensures t.isTty && TryOutcome(t.faults, old(t.input), timeout).Raised? ==>
              t.now == old(t.now) && t.output == old(t.output)
    ensures t.isTty && TryOutcome(t.faults, old(t.input), timeout).Raised? ==>
              t.input == if ReachesDrain(t.faults) then AfterDrain(old(t.input)) else old(t.input)
    ensures t.isTty && TryOutcome(t.faults, old(t.input), timeout).Raised? ==>
              t.pending == if ReachesDrain(t.faults) && WriteFails !in t.faults
                           then old(t.pending) + Query else old(t.pending)
  {
    var got := t.GetAttrs();
    if got.None? {
      return Raised(NotATty);
    }
    var oldSettings := got.value;
    var again := t.GetAttrs();
    var newSettings := RawSettings(again.value);
    // try:
    out := TryProbe(t, newSettings, timeout);
    // finally:
    var restored := t.SetAttrs(TCSADRAIN, oldSettings);
    if !restored {
      out := Raised(TcsetattrFailed(TCSADRAIN));
    }
  }

  // -----------------------------------------------------------------------
  // Properties of the probe

  /** Appending calls that set no attributes adds no attribute write. */
  lemma AppendNoAttrs(log: seq<Event>, ev: seq<Event>)
    requires NoAttrsSet(ev)
    ensures AttrWrites(log + ev) == AttrWrites(log)
  {
    NoAttrWritesIn(ev);
    AttrWritesAppend(log, ev);
    assert AttrWrites(log) + [] == AttrWrites(log);
  }

  /** Appending one attribute write adds exactly that write. */
  lemma AppendAttrs(log: seq<Event>, e: Event)
    requires e.AttrsSet?
    ensures AttrWrites(log + [e]) == AttrWrites(log) + [e]
  {
    AttrWritesAppend(log, [e]);
    assert [e][1..] == [];
  }

  /** The `try` block writes the attributes once, first, with the raw
      copy; everything after that only reads, writes output, sleeps or
      sets the status flags. */
  lemma OnlyRawSettingsApplied(raw: Attrs, flags: bv32, faults: set<Fault>, q: seq<ReadOutcome>,
                               timeout: int, log: seq<Event>)
    ensures AttrWrites(TryLog(raw, flags, faults, q, timeout, log)) ==
            AttrWrites(log) + [AttrsSet(TCSANOW, raw)]
  {
    var applied := log + [AttrsSet(TCSANOW, raw)];
    AppendAttrs(log, AttrsSet(TCSANOW, raw));
    if SetAttrsFails(TCSANOW) !in faults {
      var nonblocking := applied + [FlagsSet(WithNonblock(flags))];
      AppendNoAttrs(applied, [FlagsSet(WithNonblock(flags))]);
      if SetFlagsFails !in faults {
        DrainOnlyReads(q);
        AppendNoAttrs(nonblocking, DrainTrace(q));
        QueryAddsNoAttrs(faults, AfterDrain(q), timeout, nonblocking + DrainTrace(q));
      }
    }
  }

  /** Sending the query and scanning set no attributes. */
  lemma QueryAddsNoAttrs(faults: set<Fault>, q: seq<ReadOutcome>, timeout: int, log: seq<Event>)
    ensures AttrWrites(QueryLog(faults, q, timeout, log)) == AttrWrites(log)
  {
    var wrote := log + [Wrote(Query)];
    AppendNoAttrs(log, [Wrote(Query)]);
    if WriteFails !in faults {
      AppendNoAttrs(wrote, [Flushed]);
      if FlushFails !in faults {
        ScanOnlyReadsAndSleeps(Start(q), timeout);
        AppendNoAttrs(wrote + [Flushed], Scan(Start(q), timeout).next.log);
      }
    }
  }

  /** Whatever raises, the attributes are set exactly twice: first the raw
      copy, and last, once, the saved attributes. */
  lemma AttributesSetTwice(raw: Attrs, saved: Attrs, flags: bv32, faults: set<Fault>,
                           q: seq<ReadOutcome>, timeout: int, log: seq<Event>)
    ensures AttrWrites(TryLog(raw, flags, faults, q, timeout, log) + [AttrsSet(TCSADRAIN, saved)]) ==
            AttrWrites(log) + [AttrsSet(TCSANOW, raw), AttrsSet(TCSADRAIN, saved)]
  {
    OnlyRawSettingsApplied(raw, flags, faults, q, timeout, log);
    AppendAttrs(TryLog(raw, flags, faults, q, timeout, log), AttrsSet(TCSADRAIN, saved));
  }

  /** The calls made when some of them raise are a prefix of the calls a
      run in which nothing raises makes: the probe stops at the first
      failure and never does anything a clean run would not. */
  lemma AttemptedIsPrefix(raw: Attrs, flags: bv32, faults: set<Fault>, q: seq<ReadOutcome>,
                          timeout: int, log: seq<Event>)
    ensures var clean := TryLog(raw, flags, {}, q, timeout, log);
            var ev := TryLog(raw, flags, faults, q, timeout, log);
            |log| < |ev| <= |clean| && ev == clean[..|ev|]
  {
  }

  /** When nothing raises, the probe returns the scan's answer and its
      calls are the full sequence of a clean run. */
  lemma CleanRunReturnsScan(raw: Attrs, flags: bv32, faults: set<Fault>, q: seq<ReadOutcome>,
                            timeout: int, log: seq<Event>)
    requires SetAttrsFails(TCSANOW) !in faults && SetAttrsFails(TCSADRAIN) !in faults
    requires SetFlagsFails !in faults && WriteFails !in faults && FlushFails !in faults
    ensures TryLog(raw, flags, faults, q, timeout, log) == TryLog(raw, flags, {}, q, timeout, log)
    ensures Verdict(faults, q, timeout) == Returned(Scan(Start(AfterDrain(q)), timeout).found)
  {
  }

  /** The scan run after the drain finds the reply exactly when the marker
      occurs in the bytes read before the deadline. */
  lemma SupportedIffMarkerBeforeDeadline(q: seq<ReadOutcome>, timeout: int)
    ensures Scan(Start(AfterDrain(q)), timeout).found <==>
            Occurs(Marker, Flatten(Window(AfterDrain(q), timeout)))
  {
    var w := Window(AfterDrain(q), timeout);
    assert !Occurs(Marker, []);
    ScanMatchesWindow(Start(AfterDrain(q)), timeout);
    assert [] + Flatten(w) == Flatten(w);
  }

  /** The whole probe answers "supported" exactly when no call raises and
      the marker occurs in the bytes read after the drain and before the
      deadline; every fault, the restore's included, rules out `True`. */
  lemma ProbeSupportedIffMarkerBeforeDeadline(faults: set<Fault>, q: seq<ReadOutcome>, timeout: int)
    ensures Verdict(faults, q, timeout) == Returned(true) <==>
            faults == {} && Occurs(Marker, Flatten(Window(AfterDrain(q), timeout)))
  {
    SupportedIffMarkerBeforeDeadline(q, timeout);
    if Verdict(faults, q, timeout) == Returned(true) {
      forall f | f in faults
        ensures false
      {
        match f
        case SetAttrsFails(TCSANOW) =>
        case SetAttrsFails(TCSADRAIN) =>
        case SetFlagsFails =>
        case WriteFails =>
        case FlushFails =>
      }
    }
  }

  /** A terminal that echoes the query back and says nothing else is not
      taken for one that supports the protocol. */
  lemma EchoedQueryMeansUnsupported(q: seq<ReadOutcome>, timeout: int)
    requires Flatten(AfterDrain(q)) == Query
    ensures !Scan(Start(AfterDrain(q)), timeout).found
  {
    QueryLacksMarker();
    NoMarkerNoReply(AfterDrain(q), timeout);
  }

  /** A terminal that sends nothing but empty reads and errors is not
      supported. */
  lemma SilenceMeansUnsupported(q: seq<ReadOutcome>, timeout: int)
    requires forall i :: 0 <= i < |AfterDrain(q)| ==> IsStall(AfterDrain(q)[i])
    ensures !Scan(Start(AfterDrain(q)), timeout).found
  {
    StallsBringNoBytes(AfterDrain(q));
    assert !Occurs(Marker, []);
    NoMarkerNoReply(AfterDrain(q), timeout);
  }

  lemma {:induction false} StallsBringNoBytes(q: seq<ReadOutcome>)
    requires forall i :: 0 <= i < |q| ==> IsStall(q[i])
    ensures Flatten(q) == []
    decreases |q|
  {
    if q != [] {
      StallsBringNoBytes(q[1..]);
    }
  }

  /** With no time left the loop body never runs: no read, no sleep, and
      the answer is "not supported". */
  lemma NoTimeMeansUnsupported(q: seq<ReadOutcome>, timeout: int)
    requires timeout <= 0
    ensures Scan(Start(AfterDrain(q)), timeout) == Round(false, Start(AfterDrain(q)))
    ensures !Scan(Start(AfterDrain(q)), timeout).found
  {
  }

  /** A reply split over two reads, with other bytes before and after the
      marker, is found as long as both reads come before the deadline (an
      empty first part is a read that brings nothing, and costs a poll). */
  lemma SplitReplyIsFound(pre: seq<byte>, k: nat, post: seq<byte>, timeout: int)
    requires k <= |Marker| && timeout > PollTicks
    requires |pre| + k <= ReadSize && |Marker| - k + |post| <= ReadSize
    ensures Scan(Start([Data(pre + Marker[..k]), Data(Marker[k..] + post)]), timeout).found
  {
    var q := [Data(pre + Marker[..k]), Data(Marker[k..] + post)];
    assert q[1..] == [q[1]] && q[1..][1..] == [];
    assert Window(q, timeout) == q;
    assert Flatten(q[1..]) == Payload(q[1]) + Flatten([]);
    assert Flatten(q) == Payload(q[0]) + Flatten(q[1..]);
    assert Marker[..k] + Marker[k..] == Marker;
    assert Flatten(q) == pre + Marker + post;
    OccursInside(Marker, pre, post);
    assert !Occurs(Marker, []);
    ScanMatchesWindow(Start(q), timeout);
    assert [] + Flatten(q) == Flatten(q);
  }
}
