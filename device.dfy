/** The terminal the probe talks to, seen through the calls the probe makes
    on it: `tcgetattr`/`tcsetattr`, `fcntl` F_GETFL/F_SETFL, `os.read`,
    writes and flushes of standard output, `time.time` and `time.sleep`.
    What the terminal sends is a script of read results; which calls raise
    is a fixed set of faults; every call that acts on the device is logged,
    whether it succeeds or raises. */
module Device {
  import opened Termios

  type byte = b: int | 0 <= b < 256

  datatype Option<T> = None | Some(value: T)

  /** The byte count every `os.read` of the probe asks for. */
  const ReadSize: nat := 1024

  /** What one read can bring: at most the requested count. */
  type Chunk = s: seq<byte> | |s| <= ReadSize

  /** The result of one `os.read`: some bytes (none at all means end of
      input) or an `OSError` (EAGAIN when nothing is queued). */
  datatype ReadOutcome = Data(bytes: Chunk) | OsError

  /** A read that brings no bytes, after which the probe's loops stop or sleep. */
  predicate IsStall(o: ReadOutcome)
  {
    o.OsError? || o.bytes == []
  }

  /** The `when` argument of `tcsetattr`. */
  datatype When = TCSANOW | TCSADRAIN

  /** A call that acts on the device, in the order the probe makes it. */
  datatype Event =
    | AttrsSet(when: When, attrs: Attrs)
    | FlagsSet(flags: bv32)
    | ReadDone(outcome: ReadOutcome)
    | Wrote(bytes: seq<byte>)
    | Flushed
    | Slept(ticks: nat)

  /** Calls the device is scripted to make raise. */
  datatype Fault = SetAttrsFails(when: When) | SetFlagsFails | WriteFails | FlushFails

  /** Events that only take input or wait: the drain and the scan make no others. */
  predicate Passive(ev: seq<Event>)
  {
    forall i :: 0 <= i < |ev| ==> ev[i].ReadDone? || ev[i].Slept?
  }

  /** The attribute writes among `ev`, in order. */
  function AttrWrites(ev: seq<Event>): (w: seq<Event>)
    ensures |w| <= |ev|
    ensures forall i :: 0 <= i < |w| ==> w[i].AttrsSet?
  {
    if ev == [] then []
    else (if ev[0].AttrsSet? then [ev[0]] else []) + AttrWrites(ev[1..])
  }

  lemma {:induction false} AttrWritesAppend(x: seq<Event>, y: seq<Event>)
    ensures AttrWrites(x + y) == AttrWrites(x) + AttrWrites(y)
    decreases |x|
  {
    if x == [] {
      assert x + y == y;
    } else {
      assert (x + y)[1..] == x[1..] + y;
      AttrWritesAppend(x[1..], y);
    }
  }

  /** No attribute write happens in `ev`. */
  predicate NoAttrsSet(ev: seq<Event>)
  {
    forall i :: 0 <= i < |ev| ==> !ev[i].AttrsSet?
  }

  lemma {:induction false} NoAttrWritesIn(ev: seq<Event>)
    requires NoAttrsSet(ev)
    ensures AttrWrites(ev) == []
    decreases |ev|
  {
    if ev != [] {
      NoAttrWritesIn(ev[1..]);
    }
  }

  /** Standard input and output of one terminal. */
  class Terminal {
    /** Whether the descriptor is a terminal at all (`tcgetattr` raises if not). */
    const isTty: bool
    const faults: set<Fault>
    /** The line-discipline attributes in force. */
    var attrs: Attrs
    /** The file-status flags (F_GETFL). */
    var statusFlags: bv32
    /** What the next reads return, in order. */
    var input: seq<ReadOutcome>
    /** Bytes written to standard output but not yet flushed. */
    var pending: seq<byte>
    /** Bytes delivered to the terminal. */
    var output: seq<byte>
    /** The clock, in ticks of 10 ms. */
    var now: int
    var log: seq<Event>

    ghost predicate Valid()
      reads this
    {
      WellFormed(attrs)
    }

    ghost predicate NonBlocking()
      reads this
    {
      statusFlags & O_NONBLOCK != 0
    }

    constructor (isTty: bool, attrs: Attrs, statusFlags: bv32, input: seq<ReadOutcome>,
                 now: int, faults: set<Fault>)
      requires WellFormed(attrs)
      ensures Valid()
      ensures this.isTty == isTty && this.faults == faults && this.attrs == attrs
      ensures this.statusFlags == statusFlags && this.input == input && this.now == now
      ensures pending == [] && output == [] && log == []
    {
      this.isTty := isTty;
      this.faults := faults;
      this.attrs := attrs;
      this.statusFlags := statusFlags;
      this.input := input;
      this.now := now;
      pending, output, log := [], [], [];
    }

    /** `tcgetattr`: the attributes in force, or nothing on a non-terminal. */
    method GetAttrs() returns (r: Option<Attrs>)
      requires Valid()
      ensures isTty <==> r.Some?
      ensures r.Some? ==> r.value == attrs && WellFormed(r.value)
    {
      if isTty {
        r := Some(attrs);
      } else {
        r := None;
      }
    }

    /** `tcsetattr`: installs `a` unless the call is scripted to raise. */
    method SetAttrs(when: When, a: Attrs) returns (ok: bool)
      requires Valid() && WellFormed(a)
      modifies this`attrs, this`log
      ensures Valid()
      ensures ok <==> SetAttrsFails(when) !in faults
      ensures attrs == if ok then a else old(attrs)
      ensures log == old(log) + [AttrsSet(when, a)]
    {
      ok := SetAttrsFails(when) !in faults;
      if ok {
        attrs := a;
      }
      log := log + [AttrsSet(when, a)];
    }

    /** `fcntl(fd, F_GETFL)`, on a descriptor already known to be open. */
    method GetFlags() returns (f: bv32)
      ensures f == statusFlags
    {
      f := statusFlags;
    }

    /** `fcntl(fd, F_SETFL, f)`. */
    method SetFlags(f: bv32) returns (ok: bool)
      requires Valid()
      modifies this`statusFlags, this`log
      ensures Valid()
      ensures ok <==> SetFlagsFails !in faults
      ensures statusFlags == if ok then f else old(statusFlags)
      ensures log == old(log) + [FlagsSet(f)]
    {
      ok := SetFlagsFails !in faults;
      if ok {
        statusFlags := f;
      }
      log := log + [FlagsSet(f)];
    }

    /** `os.read(fd, 1024)` on a non-blocking descriptor: the next scripted
        result, or EAGAIN once the script is used up. */
    method Read() returns (o: ReadOutcome)
      requires Valid() && NonBlocking()
      modifies this`input, this`log
      ensures Valid()
      ensures old(input) == [] ==> o == OsError && input == []
      ensures old(input) != [] ==> o == old(input)[0] && input == old(input)[1..]
      ensures log == old(log) + [ReadDone(o)]
    {
      if input == [] {
        o := OsError;
      } else {
        o := input[0];
        input := input[1..];
      }
      log := log + [ReadDone(o)];
    }

    /** `sys.stdout.buffer.write(b)`: buffered until the next flush. */
    method Write(b: seq<byte>) returns (ok: bool)
      requires Valid()
      modifies this`pending, this`log
      ensures Valid()
      ensures ok <==> WriteFails !in faults
      ensures pending == if ok then old(pending) + b else old(pending)
      ensures log == old(log) + [Wrote(b)]
    {
      ok := WriteFails !in faults;
      if ok {
        pending := pending + b;
      }
      log := log + [Wrote(b)];
    }

    /** `sys.stdout.flush()`: hands the buffered bytes to the terminal. */
    method Flush() returns (ok: bool)
      requires Valid()
      modifies this`pending, this`output, this`log
      ensures Valid()
      ensures ok <==> FlushFails !in faults
      ensures ok ==> output == old(output) + old(pending) && pending == []
      ensures !ok ==> output == old(output) && pending == old(pending)
      ensures log == old(log) + [Flushed]
    {
      ok := FlushFails !in faults;
      if ok {
        output := output + pending;
        pending := [];
      }
      log := log + [Flushed];
    }

    /** `time.time()`. */
    method Time() returns (t: int)
      ensures t == now
    {
      t := now;
    }

    /** `time.sleep`: the only thing that moves the clock. */
    method Sleep(ticks: nat)
      requires Valid()
      modifies this`now, this`log
      ensures Valid()
      ensures now == old(now) + ticks
      ensures log == old(log) + [Slept(ticks)]
    {
      now := now + ticks;
      log := log + [Slept(ticks)];
    }
  }
}
