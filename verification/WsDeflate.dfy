/**
 Per-message deflate with a shared history, sections 7.1.1 and 7.2 of RFC 7692.
 The compressor itself is a parameter: a pair of functions of which only the inverse law is known.
 */
module WsDeflate {
  import opened Bytes
  import opened WsFrame

  const HISTORY_SIZE := 0x8000
  const SYNC_TAIL: seq<byte> := [0x00, 0x00, 0xff, 0xff]
  const FINAL_EMPTY_BLOCK: seq<byte> := [0x01, 0x00, 0x00, 0xff, 0xff]

  // A message before compression: far below the length where a deflated copy would not fit a slice.
  type Plain = s: seq<byte> | |s| < 0x4000_0000_0000_0000 witness []

  /** How decompression ended behind the bytes it produced. */
  datatype Stop = Clean | Truncated | Corrupt

  datatype Inflated = Inflated(out: seq<byte>, stop: Stop)

  /** `deflate` is Write and Flush under a preset dictionary; `inflate` reads its input to the end. */
  datatype FlatePair = FlatePair(
    deflate: (seq<byte>, seq<byte>) -> Slice,
    inflate: (seq<byte>, seq<byte>) -> Inflated)

  predicate EndsInSyncTail(b: seq<byte>) {
    |b| >= 4 && b[|b| - 4..] == SYNC_TAIL
  }

  ghost predicate InversePair(f: FlatePair) {
    forall dict: seq<byte>, p: seq<byte> {:trigger f.deflate(dict, p)} ::
      |dict| <= HISTORY_SIZE && |p| < 0x4000_0000_0000_0000 ==>
        && EndsInSyncTail(f.deflate(dict, p))
        && f.inflate(dict, f.deflate(dict, p) + FINAL_EMPTY_BLOCK) == Inflated(p, Clean)
  }

  type Flate = f: FlatePair | InversePair(f) ghost witness (StoredIsInverse(); Stored())

  /** The law can be met: the pair that stores its input. */
  function Stored(): FlatePair {
    FlatePair(
      (dict: seq<byte>, p: seq<byte>) => if |p| < 0x4000_0000_0000_0000 then p + SYNC_TAIL else [],
      (dict: seq<byte>, b: seq<byte>) =>
        if |b| >= 9 then Inflated(b[..|b| - 9], Clean) else Inflated([], Truncated))
  }

  lemma StoredIsInverse()
    ensures InversePair(Stored())
  {
    forall p: seq<byte> | |p| < 0x4000_0000_0000_0000
      ensures (p + SYNC_TAIL + FINAL_EMPTY_BLOCK)[..|p|] == p
    {
    }
  }

  // ----- the history -----

  function Last(s: seq<byte>, n: nat): seq<byte> {
    if |s| <= n then s else s[|s| - n..]
  }

  method AppendHistory(history: seq<byte>, added: seq<byte>) returns (h: seq<byte>)
    requires |history| <= HISTORY_SIZE
    ensures h == Last(history + added, HISTORY_SIZE) && |h| <= HISTORY_SIZE
  {
    if |added| >= HISTORY_SIZE {
      assert (history + added)[|history| + |added| - HISTORY_SIZE..] == added[|added| - HISTORY_SIZE..];
      return added[|added| - HISTORY_SIZE..];
    }
    h := history + added;
    if |h| > HISTORY_SIZE {
      h := h[|h| - HISTORY_SIZE..];
    }
  }

  lemma LastOfLast(a: seq<byte>, b: seq<byte>, n: nat)
    ensures Last(Last(a, n) + b, n) == Last(a + b, n)
  {
  }

  // ----- the two ends -----

  /** One direction of a connection: a history that is shared, or none. */
  datatype Context = Context(noContext: bool, history: seq<byte>)

  predicate ValidContext(c: Context) {
    |c.history| <= HISTORY_SIZE && (c.noContext ==> c.history == [])
  }

  function Dict(c: Context): seq<byte> {
    if c.noContext || c.history == [] then [] else c.history
  }

  function Remember(c: Context, added: seq<byte>): (r: Context)
    ensures ValidContext(c) ==> ValidContext(r)
  {
    if c.noContext then c else c.(history := Last(c.history + added, HISTORY_SIZE))
  }

  function StripTail(b: Slice): Slice {
    if EndsInSyncTail(b) then b[..|b| - 4] else b
  }

  function DeflateSpec(f: Flate, c: Context, p: Plain): (Context, Slice) {
    (Remember(c, p), StripTail(f.deflate(Dict(c), p)))
  }

  function InflateSpec(f: Flate, c: Context, z: seq<byte>): (Context, Result<seq<byte>, WsError>) {
    var got := f.inflate(Dict(c), z + SYNC_TAIL + FINAL_EMPTY_BLOCK);
    if |got.out| > MAX_MESSAGE_SIZE then (c, Err(MessageTooLarge))
    else if got.stop == Corrupt then (c, Err(FlateCorrupt))
    else (Remember(c, got.out), Ok(got.out))
  }

  /** The limited reader stops one byte beyond the largest message, before any later fault. */
  function Limited(i: Inflated): (r: Inflated)
    ensures |i.out| <= MAX_MESSAGE_SIZE ==> r == i
    ensures |i.out| > MAX_MESSAGE_SIZE ==> |r.out| == MAX_MESSAGE_SIZE + 1 && r.stop == Clean
  {
    if |i.out| > MAX_MESSAGE_SIZE then Inflated(i.out[..MAX_MESSAGE_SIZE + 1], Clean) else i
  }

  class Deflater {
    const flate: Flate
    const noContext: bool
    var history: seq<byte>

    ghost function Value(): Context
      reads this
    {
      Context(noContext, history)
    }

    constructor (flate: Flate, noContext: bool)
      ensures this.flate == flate && Value() == Context(noContext, [])
    {
      this.flate, this.noContext, history := flate, noContext, [];
    }

    method Deflate(payload: Plain) returns (z: Slice)
      requires ValidContext(Value())
      modifies this
      ensures ValidContext(Value())
      ensures (Value(), z) == DeflateSpec(flate, old(Value()), payload)
    {
      var out := if noContext || history == [] then flate.deflate([], payload) else flate.deflate(history, payload);
      if |out| >= 4 && out[|out| - 4..] == SYNC_TAIL {
        out := out[..|out| - 4];
      }
      if !noContext {
        history := AppendHistory(history, payload);
      }
      return out;
    }
  }

  class Inflater {
    const flate: Flate
    const noContext: bool
    var history: seq<byte>

    ghost function Value(): Context
      reads this
    {
      Context(noContext, history)
    }

    constructor (flate: Flate, noContext: bool)
      ensures this.flate == flate && Value() == Context(noContext, [])
    {
      this.flate, this.noContext, history := flate, noContext, [];
    }

    method Inflate(payload: seq<byte>) returns (r: Result<seq<byte>, WsError>)
      requires ValidContext(Value())
      modifies this
      ensures ValidContext(Value())
      ensures (Value(), r) == InflateSpec(flate, old(Value()), payload)
    {
      hide InversePair, Limited, Last;
      var src := payload + SYNC_TAIL + FINAL_EMPTY_BLOCK;
      var got := if noContext || history == [] then flate.inflate([], src) else flate.inflate(history, src);
      got := Limited(got);
      if got.stop == Corrupt {
        return Err(FlateCorrupt);
      }
      var out := got.out;
      if |out| > MAX_MESSAGE_SIZE {
        return Err(MessageTooLarge);
      }
      if !noContext {
        history := AppendHistory(history, out);
      }
      return Ok(out);
    }
  }

  /** Two ends with equal contexts: inflating what was deflated gives it back and keeps them equal. */
  lemma InflateUndoesDeflate(f: Flate, c: Context, p: Plain)
    requires ValidContext(c)
    ensures var (c1, z) := DeflateSpec(f, c, p);
            InflateSpec(f, c, z) ==
              if |p| <= MAX_MESSAGE_SIZE then (c1, Ok(p)) else (c, Err(MessageTooLarge))
  {
    var d := f.deflate(Dict(c), p);
    var z := StripTail(d);
    assert EndsInSyncTail(d);
    assert z + SYNC_TAIL == d;
  }
}
