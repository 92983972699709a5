/** The input-report decoder (event.go): a state of key, dial-push and
    dial-position arrays that grow on demand, updated in place by each raw
    report read from the panel, and the events each report gives rise to. */
module Events {
  import opened Common
  import Profile

  /** Upper bound of a dial position; the lower bound is 0. */
  const DialMax := 100

  /** Position a dial is assumed to have before it is first reported. */
  const DialStart := 50

  datatype EventKind = Unknown | KeyPressed | KeyReleased | DialPressed | DialReleased | DialTurn

  datatype Event = Event(kind: EventKind, which: int)

  datatype DecodeError =
    | BadSentinel(first: byte)          // the report does not start with 1
    | WrongLegacyLength(length: int)    // a legacy report shorter than 15 key bytes
    | UnknownEventType(discriminator: byte)

  // ---------------------------------------------------------------------
  // Text form of events

  /** `EventKind.String`: the name of each kind; values outside the
      enumeration print as "unknown", which is what `Unknown` stands for. */
  function KindName(k: EventKind): (s: string)
    ensures |s| > 0 && ':' !in s
  {
    match k
    case KeyPressed => "key-pressed"
    case KeyReleased => "key-released"
    case DialPressed => "dial-pressed"
    case DialReleased => "dial-released"
    case DialTurn => "dial-turn"
    case Unknown => "unknown"
  }

  /** Distinct kinds have distinct names. */
  lemma KindNamesDistinct(a: EventKind, b: EventKind)
    ensures KindName(a) == KindName(b) ==> a == b
  {
  }

  function DigitChar(d: int): (ch: char)
    requires 0 <= d < 10
    ensures '0' <= ch <= '9' && ch as int - '0' as int == d
  {
    ('0' as int + d) as char
  }

  predicate AllDigits(s: string) {
    forall i :: 0 <= i < |s| ==> '0' <= s[i] <= '9'
  }

  /** Decimal digits of a natural number, most significant first (`%d`). */
  function NatDigits(n: nat): (s: string)
    ensures |s| > 0 && AllDigits(s)
    decreases n
  {
    if n < 10 then [DigitChar(n)] else NatDigits(n / 10) + [DigitChar(n % 10)]
  }

  /** The number a string of decimal digits denotes. */
  function DigitsValue(s: string): nat
    requires AllDigits(s)
  {
    if |s| == 0 then 0 else DigitsValue(s[..|s| - 1]) * 10 + (s[|s| - 1] as int - '0' as int)
  }

  lemma {:induction false} NatDigitsRoundTrip(n: nat)
    ensures DigitsValue(NatDigits(n)) == n
    decreases n
  {
    if n >= 10 {
      NatDigitsRoundTrip(n / 10);
      var s := NatDigits(n);
      assert s[..|s| - 1] == NatDigits(n / 10);
    }
  }

  /** `%d` of a Go `int`. */
  function Decimal(n: int): (s: string)
    ensures |s| > 0
    ensures n < 0 <==> s[0] == '-'
    ensures AllDigits(if n < 0 then s[1..] else s)
    ensures DigitsValue(if n < 0 then s[1..] else s) == Abs(n)
  {
    NatDigitsRoundTrip(Abs(n));
    if n < 0 then "-" + NatDigits(-n) else NatDigits(n)
  }

  /** `Event.String`: the kind's name, a colon and the index in decimal.
      The text can be split back into the kind and the index. */
  function EventString(e: Event): (s: string)
    ensures var name := KindName(e.kind);
            |s| > |name| + 1 && s[..|name|] == name && s[|name|] == ':'
            && (forall i :: 0 <= i < |name| + 1 ==> (s[i] == ':' <==> i == |name|))
            && s[|name| + 1..] == Decimal(e.which)
  {
    KindName(e.kind) + ":" + Decimal(e.which)
  }

  lemma EventStringExamples()
    ensures EventString(Event(DialPressed, 5)) == "dial-pressed:5"
    ensures EventString(Event(KeyReleased, 0)) == "key-released:0"
    ensures EventString(Event(DialTurn, 0)) == "dial-turn:0"
  {
  }

  // ---------------------------------------------------------------------
  // Boolean arrays (keys, dial pushes)

  /** The value slot `i` held before an update; slots the array did not
      have yet start out false. */
  function Prior(prev: seq<bool>, i: int): bool {
    if 0 <= i < |prev| then prev[i] else false
  }

  /** Whether byte `i` of the data changes slot `i`. */
  predicate Flips(prev: seq<bool>, data: seq<byte>, i: int)
    requires 0 <= i < |data|
  {
    Prior(prev, i) != (data[i] != 0)
  }

  /** The array after `applyBools`: it grows to the length of the data, the
      slots covered by the data take "byte is nonzero", the rest are kept. */
  function BoolsAfter(prev: seq<bool>, data: seq<byte>): (r: seq<bool>)
    ensures |r| == Max(|prev|, |data|)
    ensures forall i :: 0 <= i < |data| ==> r[i] == (data[i] != 0)
    ensures forall i :: |data| <= i < |prev| ==> r[i] == prev[i]
  {
    seq(Max(|prev|, |data|), i requires 0 <= i < Max(|prev|, |data|) =>
      if i < |data| then data[i] != 0 else prev[i])
  }

  /** The indices below `n` whose slot the data flips, in ascending order. */
  function Flipped(prev: seq<bool>, data: seq<byte>, n: nat): seq<int>
    requires n <= |data|
  {
    if n == 0 then []
    else Flipped(prev, data, n - 1) + (if Flips(prev, data, n - 1) then [n - 1] else [])
  }

  /** `Flipped` lists exactly the flipped indices, each once, ascending. */
  lemma {:induction false} FlippedExactly(prev: seq<bool>, data: seq<byte>, n: nat)
    requires n <= |data|
    ensures forall i :: i in Flipped(prev, data, n) <==> 0 <= i < n && Flips(prev, data, i)
    ensures forall j :: 0 <= j < |Flipped(prev, data, n)| ==> 0 <= Flipped(prev, data, n)[j] < n
    ensures forall j, k :: 0 <= j < k < |Flipped(prev, data, n)| ==> Flipped(prev, data, n)[j] < Flipped(prev, data, n)[k]
  {
    if n > 0 {
      FlippedExactly(prev, data, n - 1);
    }
  }

  /** Once the data has been applied, applying it again flips nothing. */
  lemma {:induction false} FlippedSteady(prev: seq<bool>, data: seq<byte>, n: nat)
    requires n <= |data|
    ensures Flipped(BoolsAfter(prev, data), data, n) == []
  {
    if n > 0 {
      FlippedSteady(prev, data, n - 1);
      assert !Flips(BoolsAfter(prev, data), data, n - 1);
    }
  }

  /** `applyBools`: overwrite (and grow) the array from the data, collecting
      the indices that changed. */
  method ApplyBools(prev: seq<bool>, data: seq<byte>) returns (changed: seq<int>, next: seq<bool>)
    ensures next == BoolsAfter(prev, data)
    ensures changed == Flipped(prev, data, |data|)
  {
    changed := [];
    next := prev;
    var i := 0;
    while i < |data|
      invariant 0 <= i <= |data|
      invariant |next| == Max(|prev|, i)
      invariant forall j :: 0 <= j < |next| ==> next[j] == if j < i then data[j] != 0 else prev[j]
      invariant changed == Flipped(prev, data, i)
    {
      if |next| <= i {
        next := next + [false];
      }
      var before := next[i];
      next := next[i := data[i] != 0];
      if before != next[i] {
        changed := changed + [i];
      }
      i := i + 1;
    }
  }

  /** One event per changed index, in the order of `changed`: `on` when
      the slot is now set, `off` when it is now clear. */
  function EventsOf(changed: seq<int>, now: seq<bool>, on: EventKind, off: EventKind): seq<Event>
    requires forall j :: 0 <= j < |changed| ==> 0 <= changed[j] < |now|
  {
    seq(|changed|, j requires 0 <= j < |changed| => Event(if now[changed[j]] then on else off, changed[j]))
  }

  /** The loop over `changedKeys` shared by the key and dial-push updates. */
  method EmitEvents(changed: seq<int>, now: seq<bool>, on: EventKind, off: EventKind) returns (events: seq<Event>)
    requires forall j :: 0 <= j < |changed| ==> 0 <= changed[j] < |now|
    ensures events == EventsOf(changed, now, on, off)
  {
    events := [];
    var j := 0;
    while j < |changed|
      invariant 0 <= j <= |changed|
      invariant events == EventsOf(changed[..j], now, on, off)
    {
      var e := if now[changed[j]] then Event(on, changed[j]) else Event(off, changed[j]);
      assert changed[..j + 1] == changed[..j] + [changed[j]];
      events := events + [e];
      j := j + 1;
    }
    assert changed[..|changed|] == changed;
  }

  /** The events a boolean report produces from the array `prev`. */
  function BoolEvents(prev: seq<bool>, data: seq<byte>, on: EventKind, off: EventKind): seq<Event>
  {
    FlippedExactly(prev, data, |data|);
    EventsOf(Flipped(prev, data, |data|), BoolsAfter(prev, data), on, off)
  }

  /** A boolean report yields one event per flipped index, ascending, and
      the kind tells whether the slot is now set; an index that does not
      flip yields no event. */
  lemma BoolEventsMeaning(prev: seq<bool>, data: seq<byte>, on: EventKind, off: EventKind)
    ensures var evs := BoolEvents(prev, data, on, off);
            && (forall j :: 0 <= j < |evs| ==>
                  0 <= evs[j].which < |data| && Flips(prev, data, evs[j].which)
                  && evs[j].kind == if data[evs[j].which] != 0 then on else off)
            && (forall j, k :: 0 <= j < k < |evs| ==> evs[j].which < evs[k].which)
            && (forall i :: 0 <= i < |data| && Flips(prev, data, i) ==> exists j :: 0 <= j < |evs| && evs[j].which == i)
  {
    var changed := Flipped(prev, data, |data|);
    FlippedExactly(prev, data, |data|);
    var evs := BoolEvents(prev, data, on, off);
    forall i | 0 <= i < |data| && Flips(prev, data, i)
      ensures exists j :: 0 <= j < |evs| && evs[j].which == i
    {
      assert i in changed;
      var j :| 0 <= j < |changed| && changed[j] == i;
      assert evs[j].which == i;
    }
  }

  /** A report that flips exactly one slot yields exactly one event, for
      that slot. */
  lemma SingleFlipEvent(prev: seq<bool>, data: seq<byte>, i: int, on: EventKind, off: EventKind)
    requires 0 <= i < |data| && Flips(prev, data, i)
    requires forall j :: 0 <= j < |data| && j != i ==> !Flips(prev, data, j)
    ensures BoolEvents(prev, data, on, off) == [Event(if data[i] != 0 then on else off, i)]
  {
    FlippedOnly(prev, data, i, |data|);
  }

  /** When no slot but `i` can flip, the prefix scan finds `i` alone, once
      it has passed it. */
  lemma {:induction false} FlippedOnly(prev: seq<bool>, data: seq<byte>, i: int, n: nat)
    requires n <= |data| && 0 <= i < |data|
    requires forall j :: 0 <= j < |data| && j != i ==> !Flips(prev, data, j)
    ensures Flipped(prev, data, n) == if i < n && Flips(prev, data, i) then [i] else []
  {
    if n > 0 {
      FlippedOnly(prev, data, i, n - 1);
    }
  }

  /** A report that flips exactly two slots yields their two events, the
      lower index first. */
  lemma PairFlipEvents(prev: seq<bool>, data: seq<byte>, i: int, k: int, on: EventKind, off: EventKind)
    requires 0 <= i < k < |data| && Flips(prev, data, i) && Flips(prev, data, k)
    requires forall j :: 0 <= j < |data| && j != i && j != k ==> !Flips(prev, data, j)
    ensures BoolEvents(prev, data, on, off) ==
              [Event(if data[i] != 0 then on else off, i), Event(if data[k] != 0 then on else off, k)]
  {
    FlippedPair(prev, data, i, k, |data|);
  }

  /** When no slots but `i < k` can flip, the prefix scan finds those of
      them it has passed, in order. */
  lemma {:induction false} FlippedPair(prev: seq<bool>, data: seq<byte>, i: int, k: int, n: nat)
    requires n <= |data| && 0 <= i < k < |data| && Flips(prev, data, i) && Flips(prev, data, k)
    requires forall j :: 0 <= j < |data| && j != i && j != k ==> !Flips(prev, data, j)
    ensures Flipped(prev, data, n) == (if i < n then [i] else []) + (if k < n then [k] else [])
  {
    if n > 0 {
      FlippedPair(prev, data, i, k, n - 1);
    }
  }

  /** A boolean report applied a second time produces no events. */
  lemma BoolReportTwiceIsQuiet(prev: seq<bool>, data: seq<byte>, on: EventKind, off: EventKind)
    ensures BoolEvents(BoolsAfter(prev, data), data, on, off) == []
  {
    FlippedSteady(prev, data, |data|);
  }

  // ---------------------------------------------------------------------
  // Dial positions

  /** The signed 8-bit value an unsigned byte encodes. */
  function SignedByte(d: byte): (v: int)
    ensures -128 <= v < 128 && (v - d) % 256 == 0
  {
    if d < 0x80 then d else d - 256
  }

  function Clamp(v: int): (r: int)
    ensures 0 <= r <= DialMax
    ensures 0 <= v <= DialMax ==> r == v
  {
    Min(DialMax, Max(0, v))
  }

  /** One dial update of `applyDelta`: a byte below 0x80 turns up, capped
      at `DialMax`; any other byte turns down by `256 - d`, floored at 0.
      */
  function DialStep(p: int, d: byte): int {
    if d < 0x80 then Min(DialMax, p + d) else Max(0, p - (256 - d))
  }

  /** From a position inside [0, DialMax] a dial step is the signed delta,
      clamped to the range; from anywhere, a step up never exceeds DialMax
      and a step down never goes below 0. */
  lemma DialStepClamps(p: int, d: byte)
    ensures 0 <= p <= DialMax ==> DialStep(p, d) == Clamp(p + SignedByte(d))
    ensures d < 0x80 ==> DialStep(p, d) <= DialMax
    ensures d >= 0x80 ==> DialStep(p, d) >= 0
  {
  }

  /** The position dial `i` has before an update; dials the array did not
      have yet start at `DialStart`. */
  function Start(prev: seq<int>, i: int): int {
    if 0 <= i < |prev| then prev[i] else DialStart
  }

  /** The dial array after `applyDelta`: it grows to the length of the data
      with new dials at `DialStart`, each dial covered by the data steps. */
  function DeltaAfter(prev: seq<int>, data: seq<byte>): (r: seq<int>)
    ensures |r| == Max(|prev|, |data|)
    ensures forall i :: |data| <= i < |prev| ==> r[i] == prev[i]
    ensures forall i :: |prev| <= i < |data| ==> r[i] == DialStep(DialStart, data[i])
  {
    seq(Max(|prev|, |data|), i requires 0 <= i < Max(|prev|, |data|) =>
      if i < |data| then DialStep(Start(prev, i), data[i]) else prev[i])
  }

  /** The highest index of a nonzero byte, or -1 when every byte is zero. */
  function LastNonZero(data: seq<byte>): (r: int)
    ensures -1 <= r < |data|
    ensures r == -1 <==> forall i :: 0 <= i < |data| ==> data[i] == 0
    ensures r >= 0 ==> data[r] != 0 && forall j :: r < j < |data| ==> data[j] == 0
  {
    if |data| == 0 then -1
    else if data[|data| - 1] != 0 then |data| - 1
    else
      var r := LastNonZero(data[..|data| - 1]);
      assert forall i :: 0 <= i < |data| - 1 ==> data[..|data| - 1][i] == data[i];
      r
  }

  /** Scanning one more byte: it becomes the last nonzero index if it is
      nonzero, and leaves the answer alone otherwise. */
  lemma LastNonZeroStep(data: seq<byte>, i: int)
    requires 0 <= i < |data|
    ensures LastNonZero(data[..i + 1]) == if data[i] != 0 then i else LastNonZero(data[..i])
  {
    assert data[..i + 1][..i] == data[..i];
  }

  predicate DialsInRange(pos: seq<int>) {
    forall i :: 0 <= i < |pos| ==> 0 <= pos[i] <= DialMax
  }

  /** Positions that start inside [0, DialMax] stay inside it. */
  lemma DeltaKeepsRange(prev: seq<int>, data: seq<byte>)
    ensures DialsInRange(prev) ==> DialsInRange(DeltaAfter(prev, data))
  {
    if DialsInRange(prev) {
      var r := DeltaAfter(prev, data);
      forall i | 0 <= i < |r| ensures 0 <= r[i] <= DialMax {
        if i < |data| {
          DialStepClamps(Start(prev, i), data[i]);
        }
      }
    }
  }

  /** The clamped update of one dial in the loop of `applyDelta`. */
  method TurnDial(p: int, d: byte) returns (output: int)
    ensures output == DialStep(p, d)
  {
    output := p;
    if d < 0x80 {
      output := Min(DialMax, output + d);
    } else {
      output := Max(0, output - (256 - d));
    }
  }

  /** `applyDelta`: step (and grow) the dial array from the data, reporting
      the last index whose delta is nonzero. */
  method ApplyDelta(prev: seq<int>, data: seq<byte>) returns (changed: int, next: seq<int>)
    ensures next == DeltaAfter(prev, data)
    ensures changed == LastNonZero(data)
  {
    changed := -1;
    next := prev;
    var i := 0;
    while i < |data|
      invariant 0 <= i <= |data|
      invariant |next| == Max(|prev|, i)
      invariant forall j :: 0 <= j < i ==> next[j] == DialStep(Start(prev, j), data[j])
      invariant forall j :: i <= j < |next| ==> next[j] == prev[j]
      invariant changed == LastNonZero(data[..i])
    {
      var d := data[i];
      if d != 0 {
        changed := i;
      }
      LastNonZeroStep(data, i);
      if |next| <= i {
        next := next + [DialStart];
      }
      assert next[i] == Start(prev, i);
      var output := TurnDial(next[i], d);
      next := next[i := output];
      i := i + 1;
    }
    assert data[..i] == data;
    DeltaAfterPointwise(prev, data, next);
  }

  /** An array that has every dial covered by the data stepped, and every
      other dial kept, is `DeltaAfter`. */
  lemma DeltaAfterPointwise(prev: seq<int>, data: seq<byte>, next: seq<int>)
    requires |next| == Max(|prev|, |data|)
    requires forall j :: 0 <= j < |data| ==> next[j] == DialStep(Start(prev, j), data[j])
    requires forall j :: |data| <= j < |next| ==> next[j] == prev[j]
    ensures next == DeltaAfter(prev, data)
  {
    assert forall j :: 0 <= j < |next| ==> next[j] == DeltaAfter(prev, data)[j];
  }

  /** The dial sequence of the decoder's unit test. */
  lemma DialWorkedExample()
    ensures DeltaAfter([], [2]) == [52]
    ensures DeltaAfter([52], [1]) == [53]
    ensures DeltaAfter([53], [50]) == [100]
    ensures DeltaAfter([100], [255]) == [99]
    ensures DeltaAfter([99], [254]) == [97]
    ensures DeltaAfter([0], [255]) == [0]
  {
  }

  // ---------------------------------------------------------------------
  // Legacy (15-key) reports

  /** The legacy report lists each row's keys right to left: canonical key
      `k` is read from byte `LegacySource(k)` of the report body. */
  function LegacySource(k: int): (i: int)
    requires 0 <= k < 15
    ensures 0 <= i < 15 && i / 5 == k / 5 && i % 5 == 4 - k % 5
  {
    DivModUnique((k / 5) * 5 + 4 - k % 5, 5, k / 5, 4 - k % 5);
    (k / 5) * 5 + 4 - k % 5
  }

  /** The canonical key bytes of a legacy report body. */
  function Descrambled(data: seq<byte>): (nd: seq<byte>)
    requires |data| >= 15
    ensures |nd| == 15
  {
    seq(15, k requires 0 <= k < 15 => data[LegacySource(k)])
  }

  /** The legacy byte order is the same column mirror that `FixKey` applies
      on the way out: `FixKey(Original, k) - 1 == LegacySource(k)`. */
  lemma LegacySourceIsMirror(k: int)
    requires 0 <= k < 15
    ensures Profile.FixKey(Profile.Original, k) - 1 == LegacySource(k)
    ensures LegacySource(LegacySource(k)) == k
  {
    Profile.FixKeyMirrorsColumn(Profile.Original, k);
  }

  /** The nested loop of `updateKeyPressOriginal` that fills `nd`. */
  method Descramble(data: seq<byte>) returns (nd: seq<byte>)
    requires |data| >= 15
    ensures nd == Descrambled(data)
  {
    var a := new byte[15];
    var x := 0;
    while x < 3
      invariant 0 <= x <= 3
      invariant forall k :: 0 <= k < x * 5 ==> a[k] == data[LegacySource(k)]
    {
      var y := 0;
      while y < 5
        invariant 0 <= y <= 5
        invariant forall k :: 0 <= k < x * 5 + y ==> a[k] == data[LegacySource(k)]
      {
        DivModUnique(x * 5 + y, 5, x, y);
        a[x * 5 + y] := data[x * 5 + 4 - y];
        y := y + 1;
      }
      x := x + 1;
    }
    nd := a[..];
  }

  // ---------------------------------------------------------------------
  // The whole decoder

  /** The three arrays of `State`, as a value. */
  datatype Snapshot = Snapshot(keys: seq<bool>, dialPush: seq<bool>, dialPos: seq<int>)

  /** The legacy dialect is chosen by a config that asks for key conversion;
      a missing config (Go's nil) means the modern dialect. */
  predicate IsLegacy(c: Option<Profile.Config>) {
    c.Some? && c.value.convertKey
  }

  /** Reports the decoder reads without indexing past their end (Go would
      panic on shorter ones; the read loop hands over fixed-size buffers). */
  predicate Readable(c: Option<Profile.Config>, b: seq<byte>) {
    && |b| >= 1
    && (b[0] == 1 && !IsLegacy(c) ==>
          |b| >= 2 && (b[1] == 0 ==> |b| >= 4) && (b[1] == 3 ==> |b| >= 5))
  }

  /** What `Update` does to a state snapshot, and what it returns. */
  function Decode(c: Option<Profile.Config>, b: seq<byte>, s: Snapshot): (out: (Result<seq<Event>, DecodeError>, Snapshot))
    requires Readable(c, b)
    ensures out.0.Failure? ==> out.1 == s
    ensures out.1.dialPush != s.dialPush ==> out.1.keys == s.keys && out.1.dialPos == s.dialPos
    ensures |out.1.keys| >= |s.keys| && |out.1.dialPush| >= |s.dialPush| && |out.1.dialPos| >= |s.dialPos|
    ensures DialsInRange(s.dialPos) ==> DialsInRange(out.1.dialPos)
  {
    if b[0] != 1 then (Failure(BadSentinel(b[0])), s)
    else if IsLegacy(c) then
      var data := b[1..];
      if |data| < 15 then (Failure(WrongLegacyLength(|data|)), s)
      else
        var nd := Descrambled(data);
        (Success(BoolEvents(s.keys, nd, KeyPressed, KeyReleased)), s.(keys := BoolsAfter(s.keys, nd)))
    else if b[1] == 0 then
      (Success(BoolEvents(s.keys, b[4..], KeyPressed, KeyReleased)), s.(keys := BoolsAfter(s.keys, b[4..])))
    else if b[1] == 3 then
      if b[4] == 0 then
        (Success(BoolEvents(s.dialPush, b[5..], DialPressed, DialReleased)), s.(dialPush := BoolsAfter(s.dialPush, b[5..])))
      else
        DeltaKeepsRange(s.dialPos, b[5..]);
        var last := LastNonZero(b[5..]);
        (Success(if last >= 0 then [Event(DialTurn, last)] else []), s.(dialPos := DeltaAfter(s.dialPos, b[5..])))
    else
      (Failure(UnknownEventType(b[1])), s)
  }

  /** A key or dial-push report handed over twice in a row produces no
      events the second time. */
  lemma RepeatedReportIsQuiet(c: Option<Profile.Config>, b: seq<byte>, s: Snapshot)
    requires Readable(c, b)
    requires Decode(c, b, s).0.Success?
    requires !IsLegacy(c) ==> b[1] == 0 || b[4] == 0
    ensures Decode(c, b, Decode(c, b, s).1).0 == Success([])
  {
    if IsLegacy(c) {
      BoolReportTwiceIsQuiet(s.keys, Descrambled(b[1..]), KeyPressed, KeyReleased);
    } else if b[1] == 0 {
      BoolReportTwiceIsQuiet(s.keys, b[4..], KeyPressed, KeyReleased);
    } else {
      BoolReportTwiceIsQuiet(s.dialPush, b[5..], DialPressed, DialReleased);
    }
  }

  /** A dial-turn report yields at most one event, naming the highest dial
      whose delta is nonzero, and none when every delta is zero. */
  lemma DialTurnReportsLastDial(c: Option<Profile.Config>, b: seq<byte>, s: Snapshot)
    requires Readable(c, b) && b[0] == 1 && !IsLegacy(c) && b[1] == 3 && b[4] != 0
    ensures var r := Decode(c, b, s).0;
            && r.Success? && |r.value| <= 1
            && (|r.value| == 0 <==> forall i :: 5 <= i < |b| ==> b[i] == 0)
            && (|r.value| == 1 ==> var w := r.value[0].which;
                  r.value[0].kind == DialTurn && b[5 + w] != 0 && forall j :: 5 + w < j < |b| ==> b[j] == 0)
  {
    var data := b[5..];
    assert forall i :: 5 <= i < |b| ==> b[i] == data[i - 5];
  }

  /** The reports `Update` rejects, each with its own error: a first byte
      other than 1, a legacy body shorter than 15 bytes, and a modern report
      whose type byte is neither 0 (keys) nor 3 (dials). Every other report
      succeeds. */
  lemma DecodeFailures(c: Option<Profile.Config>, b: seq<byte>, s: Snapshot)
    requires Readable(c, b)
    ensures var r := Decode(c, b, s).0;
            && (r.Failure? <==> b[0] != 1 || (IsLegacy(c) && |b| < 16) || (!IsLegacy(c) && b[1] != 0 && b[1] != 3))
            && (b[0] != 1 ==> r == Failure(BadSentinel(b[0])))
            && (b[0] == 1 && IsLegacy(c) && |b| < 16 ==> r == Failure(WrongLegacyLength(|b| - 1)))
            && (b[0] == 1 && !IsLegacy(c) && b[1] != 0 && b[1] != 3 ==> r == Failure(UnknownEventType(b[1])))
  {
  }

  /** A legacy key report: the keys take the de-scrambled body that follows
      the first byte; the dial arrays are untouched. */
  lemma LegacyKeyReport(c: Option<Profile.Config>, b: seq<byte>, s: Snapshot)
    requires IsLegacy(c) && |b| >= 16 && b[0] == 1
    ensures var nd := Descrambled(b[1..]);
            Decode(c, b, s) == (Success(BoolEvents(s.keys, nd, KeyPressed, KeyReleased)),
                                Snapshot(BoolsAfter(s.keys, nd), s.dialPush, s.dialPos))
  {
  }

  /** A modern key report, under any config without key conversion: the
      keys take the body from byte 4 on; the dial arrays are untouched. */
  lemma ModernKeyReport(c: Option<Profile.Config>, b: seq<byte>, s: Snapshot)
    requires Readable(c, b) && !IsLegacy(c) && b[0] == 1 && b[1] == 0
    ensures Decode(c, b, s) == (Success(BoolEvents(s.keys, b[4..], KeyPressed, KeyReleased)),
                                Snapshot(BoolsAfter(s.keys, b[4..]), s.dialPush, s.dialPos))
  {
  }

  /** A dial report whose byte 4 is 0 carries dial pushes from byte 5 on;
      the keys and the dial positions are untouched. */
  lemma DialPushReport(c: Option<Profile.Config>, b: seq<byte>, s: Snapshot)
    requires Readable(c, b) && !IsLegacy(c) && b[0] == 1 && b[1] == 3 && b[4] == 0
    ensures Decode(c, b, s) == (Success(BoolEvents(s.dialPush, b[5..], DialPressed, DialReleased)),
                                Snapshot(s.keys, BoolsAfter(s.dialPush, b[5..]), s.dialPos))
  {
  }

  /** Any other dial report carries turn deltas from byte 5 on; the keys
      and the dial pushes are untouched. */
  lemma DialTurnReport(c: Option<Profile.Config>, b: seq<byte>, s: Snapshot)
    requires Readable(c, b) && !IsLegacy(c) && b[0] == 1 && b[1] == 3 && b[4] != 0
    ensures var last := LastNonZero(b[5..]);
            Decode(c, b, s) == (Success(if last >= 0 then [Event(DialTurn, last)] else []),
                                Snapshot(s.keys, s.dialPush, DeltaAfter(s.dialPos, b[5..])))
  {
  }

  /** Three modern key reports of the decoder's unit test, in sequence from
      the empty state: key 0 goes down, then up, then key 1 goes down. Each
      step starts from the twelve keys the previous one leaves. */
  lemma KeyPressExample()
    ensures var (r, s) := Decode(None, [1, 0, 8, 0, 1, 0, 0, 0, 0, 0, 0, 0, 0, 0, 0, 0], Snapshot([], [], []));
            && r == Success([Event(KeyPressed, 0)])
            && |s.keys| == 12 && s.keys[0] && forall i :: 1 <= i < 12 ==> !s.keys[i]
  {
    var b: seq<byte> := [1, 0, 8, 0, 1, 0, 0, 0, 0, 0, 0, 0, 0, 0, 0, 0];
    var d: seq<byte> := [1, 0, 0, 0, 0, 0, 0, 0, 0, 0, 0, 0];
    assert b[4..] == d;
    ModernKeyReport(None, b, Snapshot([], [], []));
    SingleFlipEvent([], d, 0, KeyPressed, KeyReleased);
  }

  lemma KeyReleaseExample(s: Snapshot)
    requires |s.keys| == 12 && s.keys[0] && forall i :: 1 <= i < 12 ==> !s.keys[i]
    ensures var (r, s') := Decode(None, [1, 0, 8, 0, 0, 0, 0, 0, 0, 0, 0, 0, 0, 0, 0, 0], s);
            && r == Success([Event(KeyReleased, 0)])
            && |s'.keys| == 12 && forall i :: 0 <= i < 12 ==> !s'.keys[i]
  {
    var b: seq<byte> := [1, 0, 8, 0, 0, 0, 0, 0, 0, 0, 0, 0, 0, 0, 0, 0];
    var d: seq<byte> := [0, 0, 0, 0, 0, 0, 0, 0, 0, 0, 0, 0];
    assert b[4..] == d;
    ModernKeyReport(None, b, s);
    SingleFlipEvent(s.keys, d, 0, KeyPressed, KeyReleased);
  }

  lemma SecondKeyPressExample(s: Snapshot)
    requires |s.keys| == 12 && forall i :: 0 <= i < 12 ==> !s.keys[i]
    ensures var (r, s') := Decode(None, [1, 0, 8, 0, 0, 1, 0, 0, 0, 0, 0, 0, 0, 0, 0, 0], s);
            && r == Success([Event(KeyPressed, 1)])
            && |s'.keys| == 12 && !s'.keys[0] && s'.keys[1]
  {
    var b: seq<byte> := [1, 0, 8, 0, 0, 1, 0, 0, 0, 0, 0, 0, 0, 0, 0, 0];
    var d: seq<byte> := [0, 1, 0, 0, 0, 0, 0, 0, 0, 0, 0, 0];
    assert b[4..] == d;
    ModernKeyReport(None, b, s);
    SingleFlipEvent(s.keys, d, 1, KeyPressed, KeyReleased);
  }

  /** The dial-push sequence of the decoder's unit test: press dial 0, then
      release it. */
  lemma DialPushExamples(s0: Snapshot)
    requires s0.dialPush == []
    ensures var (r1, s1) := Decode(None, [1, 3, 5, 0, 0, 1], s0);
            var (r2, s2) := Decode(None, [1, 3, 5, 0, 0, 0], s1);
            && r1 == Success([Event(DialPressed, 0)]) && s1.dialPush == [true]
            && r2 == Success([Event(DialReleased, 0)]) && s2.dialPush == [false]
  {
    var b1: seq<byte> := [1, 3, 5, 0, 0, 1];
    var b2: seq<byte> := [1, 3, 5, 0, 0, 0];
    assert b1[5..] == [1] && b2[5..] == [0];
    SingleFlipEvent([], [1], 0, DialPressed, DialReleased);
    SingleFlipEvent([true], [0], 0, DialPressed, DialReleased);
  }

  /** The legacy examples of the decoder's unit test: the first body byte is
      key 4, the last is key 10 and the eleventh is key 14. */
  lemma LegacyReportExamples()
    ensures var r := Descrambled([1, 0, 0, 0, 0, 0, 0, 0, 0, 0, 0, 0, 0, 0, 0]);
            forall k :: 0 <= k < 15 ==> (r[k] != 0 <==> k == 4)
    ensures var r := Descrambled([0, 0, 0, 0, 0, 0, 0, 0, 0, 0, 0, 0, 0, 0, 1]);
            forall k :: 0 <= k < 15 ==> (r[k] != 0 <==> k == 10)
    ensures var r := Descrambled([0, 0, 0, 0, 0, 0, 0, 0, 0, 0, 1, 0, 0, 0, 0]);
            forall k :: 0 <= k < 15 ==> (r[k] != 0 <==> k == 14)
    ensures var r := Descrambled([0, 0, 0, 0, 0, 0, 0, 0, 0, 0, 0, 0, 0, 0, 0]);
            forall k :: 0 <= k < 15 ==> r[k] == 0
  {
  }

  /** The legacy key reports of the decoder's unit test, decoded with the
      `Original` profile from the empty state: body byte 0 presses key 4. */
  lemma LegacyPressExample()
    ensures var (r, s) := Decode(Some(Profile.Original), [1, 1, 0, 0, 0, 0, 0, 0, 0, 0, 0, 0, 0, 0, 0, 0], Snapshot([], [], []));
            && r == Success([Event(KeyPressed, 4)])
            && |s.keys| == 15 && forall k :: 0 <= k < 15 ==> (s.keys[k] <==> k == 4)
  {
    var b: seq<byte> := [1, 1, 0, 0, 0, 0, 0, 0, 0, 0, 0, 0, 0, 0, 0, 0];
    assert b[1..] == [1, 0, 0, 0, 0, 0, 0, 0, 0, 0, 0, 0, 0, 0, 0];
    LegacyReportExamples();
    LegacyKeyReport(Some(Profile.Original), b, Snapshot([], [], []));
    SingleFlipEvent([], Descrambled(b[1..]), 4, KeyPressed, KeyReleased);
  }

  /** An all-zero legacy body then releases key 4. */
  lemma LegacyReleaseExample(s: Snapshot)
    requires |s.keys| == 15 && forall k :: 0 <= k < 15 ==> (s.keys[k] <==> k == 4)
    ensures var (r, s') := Decode(Some(Profile.Original), [1, 0, 0, 0, 0, 0, 0, 0, 0, 0, 0, 0, 0, 0, 0, 0], s);
            && r == Success([Event(KeyReleased, 4)])
            && |s'.keys| == 15 && forall k :: 0 <= k < 15 ==> !s'.keys[k]
  {
    var b: seq<byte> := [1, 0, 0, 0, 0, 0, 0, 0, 0, 0, 0, 0, 0, 0, 0, 0];
    assert b[1..] == [0, 0, 0, 0, 0, 0, 0, 0, 0, 0, 0, 0, 0, 0, 0];
    LegacyReportExamples();
    LegacyKeyReport(Some(Profile.Original), b, s);
    SingleFlipEvent(s.keys, Descrambled(b[1..]), 4, KeyPressed, KeyReleased);
  }

  /** From clear keys, the last body byte presses key 10. */
  lemma LegacyKey10Example(s: Snapshot)
    requires |s.keys| == 15 && forall k :: 0 <= k < 15 ==> !s.keys[k]
    ensures var (r, s') := Decode(Some(Profile.Original), [1, 0, 0, 0, 0, 0, 0, 0, 0, 0, 0, 0, 0, 0, 0, 1], s);
            && r == Success([Event(KeyPressed, 10)])
            && |s'.keys| == 15 && forall k :: 0 <= k < 15 ==> (s'.keys[k] <==> k == 10)
  {
    var b: seq<byte> := [1, 0, 0, 0, 0, 0, 0, 0, 0, 0, 0, 0, 0, 0, 0, 1];
    assert b[1..] == [0, 0, 0, 0, 0, 0, 0, 0, 0, 0, 0, 0, 0, 0, 1];
    LegacyReportExamples();
    LegacyKeyReport(Some(Profile.Original), b, s);
    SingleFlipEvent(s.keys, Descrambled(b[1..]), 10, KeyPressed, KeyReleased);
  }

  /** With key 10 still down, a body whose only nonzero byte is byte 10
      presses key 14. Byte 14 is now zero, so the same report also releases
      key 10, and that event comes first. */
  lemma LegacyKey14Example(s: Snapshot)
    requires |s.keys| == 15 && forall k :: 0 <= k < 15 ==> (s.keys[k] <==> k == 10)
    ensures var (r, s') := Decode(Some(Profile.Original), [1, 0, 0, 0, 0, 0, 0, 0, 0, 0, 0, 1, 0, 0, 0, 0], s);
            && r == Success([Event(KeyReleased, 10), Event(KeyPressed, 14)])
            && |s'.keys| == 15 && forall k :: 0 <= k < 15 ==> (s'.keys[k] <==> k == 14)
  {
    var b: seq<byte> := [1, 0, 0, 0, 0, 0, 0, 0, 0, 0, 0, 1, 0, 0, 0, 0];
    assert b[1..] == [0, 0, 0, 0, 0, 0, 0, 0, 0, 0, 1, 0, 0, 0, 0];
    LegacyReportExamples();
    LegacyKeyReport(Some(Profile.Original), b, s);
    PairFlipEvents(s.keys, Descrambled(b[1..]), 10, 14, KeyPressed, KeyReleased);
  }

  /** `State`: the decoder's mutable arrays. */
  class State {
    var keys: seq<bool>
    var dialPush: seq<bool>
    var dialPos: seq<int>

    function Snap(): Snapshot
      reads this
    {
      Snapshot(keys, dialPush, dialPos)
    }

    /** Go's zero value `State{}`: every array empty. */
    constructor ()
      ensures keys == [] && dialPush == [] && dialPos == []
    {
      keys, dialPush, dialPos := [], [], [];
    }

    /** `Update`: check the sentinel and hand the report to the dialect's
        decoder. Errors leave the state as it was. */
    method Update(c: Option<Profile.Config>, b: seq<byte>) returns (res: Result<seq<Event>, DecodeError>)
      requires Readable(c, b)
      modifies this
      ensures (res, Snap()) == Decode(c, b, old(Snap()))
    {
      if b[0] != 1 {
        return Failure(BadSentinel(b[0]));
      }
      if IsLegacy(c) {
        res := UpdateKeyPressOriginal(b[1..]);
        return;
      }
      if b[1] == 0 {
        res := UpdateKeyPress(b[4..]);
      } else if b[1] == 3 {
        if b[4] == 0 {
          res := UpdateDialPush(b[5..]);
        } else {
          res := UpdateDialTurn(b[5..]);
        }
      } else {
        res := Failure(UnknownEventType(b[1]));
      }
    }

    /** `updateKeyPressOriginal`: a 15-byte legacy body, de-scrambled into
        canonical key order before the keys are updated. */
    method UpdateKeyPressOriginal(data: seq<byte>) returns (res: Result<seq<Event>, DecodeError>)
      modifies this`keys
      ensures |data| < 15 ==> res == Failure(WrongLegacyLength(|data|)) && keys == old(keys)
      ensures |data| >= 15 ==>
                && keys == BoolsAfter(old(keys), Descrambled(data))
                && res == Success(BoolEvents(old(keys), Descrambled(data), KeyPressed, KeyReleased))
    {
      if |data| < 15 {
        return Failure(WrongLegacyLength(|data|));
      }
      var nd := Descramble(data);
      var changed;
      changed, keys := ApplyBools(keys, nd);
      FlippedExactly(old(keys), nd, |nd|);
      var events := EmitEvents(changed, keys, KeyPressed, KeyReleased);
      res := Success(events);
    }

    /** `updateKeyPress`: one byte per key, in canonical order. */
    method UpdateKeyPress(data: seq<byte>) returns (res: Result<seq<Event>, DecodeError>)
      modifies this`keys
      ensures keys == BoolsAfter(old(keys), data)
      ensures res == Success(BoolEvents(old(keys), data, KeyPressed, KeyReleased))
    {
      var changed;
      changed, keys := ApplyBools(keys, data);
      FlippedExactly(old(keys), data, |data|);
      var events := EmitEvents(changed, keys, KeyPressed, KeyReleased);
      res := Success(events);
    }

    /** `updateDialPush`: one byte per dial, nonzero while it is pushed. */
    method UpdateDialPush(data: seq<byte>) returns (res: Result<seq<Event>, DecodeError>)
      modifies this`dialPush
      ensures dialPush == BoolsAfter(old(dialPush), data)
      ensures res == Success(BoolEvents(old(dialPush), data, DialPressed, DialReleased))
    {
      var changed;
      changed, dialPush := ApplyBools(dialPush, data);
      FlippedExactly(old(dialPush), data, |data|);
      var events := EmitEvents(changed, dialPush, DialPressed, DialReleased);
      res := Success(events);
    }

    /** `updateDialTurn`: one signed delta byte per dial; at most one event. */
    method UpdateDialTurn(data: seq<byte>) returns (res: Result<seq<Event>, DecodeError>)
      modifies this`dialPos
      ensures dialPos == DeltaAfter(old(dialPos), data)
      ensures var last := LastNonZero(data);
              res == Success(if last >= 0 then [Event(DialTurn, last)] else [])
    {
      var changed;
      changed, dialPos := ApplyDelta(dialPos, data);
      if changed >= 0 {
        return Success([Event(DialTurn, changed)]);
      }
      return Success([]);
    }
  }
}
