/** Terminal line-discipline attributes as `termios.tcgetattr` reports them
    (the Linux values of the flag bits and control-character indices), the
    raw-mode copy the probe derives from them, and the `O_NONBLOCK`
    file-status flag. */
module Termios {

  /** Local-mode flag bits the probe clears. */
  const ISIG: bv32 := 0x1
  const ICANON: bv32 := 0x2
  const ECHO: bv32 := 0x8

  /** The three local-mode bits raw mode switches off. */
  const RawCleared: bv32 := ICANON | ECHO | ISIG

  /** Indices into the control-character array, and its length. */
  const VTIME: nat := 5
  const VMIN: nat := 6
  const NCCS: nat := 32

  /** The file-status flag that makes a read with no data fail at once. */
  const O_NONBLOCK: bv32 := 0x800

  type CcValue = c: int | 0 <= c < 256

  /** The seven-element list `[iflag, oflag, cflag, lflag, ispeed, ospeed, cc]`. */
  datatype Attrs = Attrs(iflag: bv32, oflag: bv32, cflag: bv32, lflag: bv32,
                         ispeed: bv32, ospeed: bv32, cc: seq<CcValue>)

  /** What `tcgetattr` gives on a terminal: a full control-character array. */
  predicate WellFormed(a: Attrs)
  {
    |a.cc| == NCCS
  }

  /** Input is delivered byte by byte, unechoed, with no signal keys, and a
      read returns as soon as one byte is there. */
  predicate IsRawMode(a: Attrs)
    requires WellFormed(a)
  {
    a.lflag & RawCleared == 0 && a.cc[VMIN] == 1 && a.cc[VTIME] == 0
  }

  /** The raw copy of `a`: ICANON, ECHO and ISIG cleared, VMIN = 1,
      VTIME = 0, and every other bit and field as in `a`. */
  function RawSettings(a: Attrs): (r: Attrs)
    requires WellFormed(a)
    ensures WellFormed(r) && IsRawMode(r)
    ensures r.lflag & !RawCleared == a.lflag & !RawCleared
    ensures r.iflag == a.iflag && r.oflag == a.oflag && r.cflag == a.cflag
    ensures r.ispeed == a.ispeed && r.ospeed == a.ospeed
    ensures forall i :: 0 <= i < NCCS && i != VMIN && i != VTIME ==> r.cc[i] == a.cc[i]
  {
    a.(lflag := a.lflag & !ICANON & !ECHO & !ISIG, cc := a.cc[VMIN := 1][VTIME := 0])
  }

  /** The contract of RawSettings pins its result down: any attributes that
      are raw and agree with `a` everywhere else are RawSettings(a). */
  lemma RawSettingsUnique(a: Attrs, b: Attrs)
    requires WellFormed(a) && WellFormed(b) && IsRawMode(b)
    requires b.lflag & !RawCleared == a.lflag & !RawCleared
    requires b.iflag == a.iflag && b.oflag == a.oflag && b.cflag == a.cflag
    requires b.ispeed == a.ispeed && b.ospeed == a.ospeed
    requires forall i :: 0 <= i < NCCS && i != VMIN && i != VTIME ==> b.cc[i] == a.cc[i]
    ensures b == RawSettings(a)
  {
  }

  /** `flags | O_NONBLOCK`: the non-blocking bit set, every other bit kept. */
  function WithNonblock(flags: bv32): (r: bv32)
    ensures r & O_NONBLOCK == O_NONBLOCK
    ensures r & !O_NONBLOCK == flags & !O_NONBLOCK
  {
    flags | O_NONBLOCK
  }
}
