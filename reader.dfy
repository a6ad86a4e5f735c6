/**
 * The level tag parser of src/toggle/reader.rs (`parse_toggle`). A level is
 * a byte stream: a version byte, then records made of a tag byte and a
 * payload. A cursor walks the stream; every arm that reads past the end,
 * and every checked integer operation that overflows, panics in the source
 * and yields `Panicked` here.
 */
module Reader {
  import opened BitArrays
  import opened Buttons

  const WidthDef: byte := 0x01
  const HeightDef: byte := 0x02
  const SubtypesDef: byte := 0x03
  const StatesDef: byte := 0x04
  const MinimumClickDef: byte := 0x05
  const CreatorDef: byte := 0x06

  /** Why parse_toggle panics. */
  datatype Panic =
    | EmptyInput          // reading the version byte of an empty stream
    | ReadPastEnd         // a payload runs past the end of the stream
    | ProductOverflow     // the u8 product width * height exceeds 255
    | NoButtons           // the u8 subtraction total_buttons - 1 underflows
    | NegativeMinClicks   // a negative i32 does not convert to u32

  datatype Outcome = Parsed(level: ToggleLevel) | Panicked(reason: Panic)

  /** The parser's variables between two records. */
  datatype Fields = Fields(
    width: nat,
    height: nat,
    totalButtons: nat,
    subtypes: seq<byte>,
    states: Bits,
    minClicks: nat)

  /** The variables before the first record: width, height and the button
      count default to 1; the rest comes from ToggleLevel::new. */
  function Initial(): Fields
  {
    Fields(1, 1, 1, [], Bits([], 0), 0)
  }

  function Finish(st: Fields): ToggleLevel
  {
    ToggleLevel(st.width, st.height, st.subtypes, st.states, st.minClicks)
  }

  /** The bytes of a payload as the bit array stores them. */
  function ToBv(r: seq<byte>): (b: seq<bv8>)
    ensures |b| == |r|
  {
    if |r| == 0 then [] else [r[0] as bv8] + ToBv(r[1..])
  }

  /** The unsigned value of four little-endian bytes. */
  function LeU32(b: seq<byte>): (n: nat)
    requires |b| == 4
    ensures n < 0x1_0000_0000
  {
    b[0] as nat + 0x100 * (b[1] as nat) + 0x1_0000 * (b[2] as nat) + 0x100_0000 * (b[3] as nat)
  }

  /** i32::from_le_bytes: the two's-complement reading of four bytes. */
  function I32FromLe(b: seq<byte>): (a: int)
    requires |b| == 4
    ensures -0x8000_0000 <= a < 0x8000_0000
    ensures a >= 0 <==> b[3] < 0x80
  {
    var u := LeU32(b);
    if u < 0x8000_0000 then u else u - 0x1_0000_0000
  }

  /** The effect of the record whose tag is at `i`: where the next record
      starts and the variables after this one, or the end of parsing. */
  datatype Step = Next(at: nat, st: Fields) | Stop(outcome: Outcome)

  function Record(x: seq<byte>, i: nat, st: Fields): (s: Step)
    requires i < |x|
    ensures s.Next? ==> i < s.at
  {
    if x[i] == WidthDef then
      if i + 1 >= |x| then Stop(Panicked(ReadPastEnd))
      else Next(i + 2, st.(width := x[i + 1] as nat))
    else if x[i] == HeightDef then
      if i + 1 >= |x| then Stop(Panicked(ReadPastEnd))
      else Next(i + 2, st.(height := x[i + 1] as nat))
    else if x[i] == SubtypesDef then
      var total := st.width * st.height;
      if total > 255 then Stop(Panicked(ProductOverflow))
      else if i + 1 + total > |x| then Stop(Panicked(ReadPastEnd))
      else Next(i + 1 + total, st.(totalButtons := total, subtypes := st.subtypes + x[i + 1..i + 1 + total]))
    else if x[i] == StatesDef then
      if st.totalButtons == 0 then Stop(Panicked(NoButtons))
      else
        var count := (st.totalButtons - 1) / 8 + 1;
        if i + 1 + count > |x| then Stop(Panicked(ReadPastEnd))
        else Next(i + 1 + count, st.(states := Bits(ToBv(x[i + 1..i + 1 + count]), 8 * count)))
    else if x[i] == MinimumClickDef then
      if i + 5 > |x| then Stop(Panicked(ReadPastEnd))
      else
        var a := I32FromLe(x[i + 1..i + 5]);
        if a < 0 then Stop(Panicked(NegativeMinClicks))
        else Next(i + 5, st.(minClicks := a))
    else if x[i] == CreatorDef then Stop(Parsed(Finish(st)))
    else Next(i + 1, st)
  }

  /** The records from position `i` on, applied to `st`. */
  function ScanFrom(x: seq<byte>, i: nat, st: Fields): Outcome
    decreases |x| - i
  {
    if i >= |x| then Parsed(Finish(st))
    else
      match Record(x, i, st)
      case Next(j, st') => ScanFrom(x, j, st')
      case Stop(outcome) => outcome
  }

  /** What parse_toggle computes from the whole stream. */
  function Parse(x: seq<byte>): Outcome
  {
    if |x| == 0 then Panicked(EmptyInput) else ScanFrom(x, 1, Initial())
  }

  /** One turn of the loop of parse_toggle: the arm for the tag at `i`,
      then the step past it. */
  method ReadRecord(x: seq<byte>, i0: nat, st: Fields) returns (step: Step)
    requires i0 < |x|
    ensures step == Record(x, i0, st)
  {
    var i := i0;
    var width, height, totalButtons := st.width, st.height, st.totalButtons;
    var subtypes, states, minClicks := st.subtypes, st.states, st.minClicks;
    var shouldEscape := false;
    if x[i] == WidthDef {
      i := i + 1;
      if i >= |x| {
        return Stop(Panicked(ReadPastEnd));
      }
      width := x[i] as nat;
    } else if x[i] == HeightDef {
      i := i + 1;
      if i >= |x| {
        return Stop(Panicked(ReadPastEnd));
      }
      height := x[i] as nat;
    } else if x[i] == SubtypesDef {
      if width * height > 255 {
        return Stop(Panicked(ProductOverflow));
      }
      totalButtons := width * height;
      var start := i + 1;
      var end := start + totalButtons;
      if end > |x| {
        return Stop(Panicked(ReadPastEnd));
      }
      i := i + totalButtons;
      subtypes := subtypes + x[start..end];
    } else if x[i] == StatesDef {
      if totalButtons == 0 {
        return Stop(Panicked(NoButtons));
      }
      var numBytes := (totalButtons - 1) / 8 + 1;
      var start := i + 1;
      var end := start + numBytes;
      if end > |x| {
        return Stop(Panicked(ReadPastEnd));
      }
      var fromBytes := new BitArray.From(ToBv(x[start..end]));
      states := fromBytes.Value();
      i := i + numBytes;
    } else if x[i] == MinimumClickDef {
      var start := i + 1;
      var end := start + 4;
      if end > |x| {
        return Stop(Panicked(ReadPastEnd));
      }
      var a := I32FromLe(x[start..end]);
      if a < 0 {
        return Stop(Panicked(NegativeMinClicks));
      }
      minClicks := a;
      i := i + 4;
    } else if x[i] == CreatorDef {
      shouldEscape := true;
    }
    i := i + 1;
    var after := Fields(width, height, totalButtons, subtypes, states, minClicks);
    if shouldEscape {
      return Stop(Parsed(Finish(after)));
    }
    return Next(i, after);
  }

  /** parse_toggle: the version byte is skipped and the records are read
      one after the other until the stream ends or a creator record stops
      the loop. */
  method ParseToggle(x: seq<byte>) returns (r: Outcome)
    ensures r == Parse(x)
  {
    if |x| == 0 {
      return Panicked(EmptyInput);
    }
    var i := 1;
    var st := Initial();
    while i < |x|
      invariant 1 <= i
      invariant Parse(x) == ScanFrom(x, i, st)
      decreases |x| - i
    {
      var step := ReadRecord(x, i, st);
      match step
      case Stop(outcome) =>
        return outcome;
      case Next(next, fields) =>
        i, st := next, fields;
    }
    r := Parsed(Finish(st));
  }

  // ---------------------------------------------------------------------
  // The records as a level editor writes them

  /** Four little-endian bytes of `n`. */
  function LeBytes(n: nat): (b: seq<byte>)
    requires n < 0x1_0000_0000
    ensures |b| == 4
  {
    [(n % 0x100) as byte, (n / 0x100 % 0x100) as byte, (n / 0x1_0000 % 0x100) as byte, (n / 0x100_0000) as byte]
  }

  lemma LeBytesRoundTrip(n: nat)
    requires n < 0x8000_0000
    ensures I32FromLe(LeBytes(n)) == n
  {
    var b := LeBytes(n);
    var d0, d1, d2, d3 := n % 0x100, n / 0x100 % 0x100, n / 0x1_0000 % 0x100, n / 0x100_0000;
    assert n == d0 + 0x100 * (n / 0x100);
    assert n / 0x100 == d1 + 0x100 * (n / 0x1_0000);
    assert n / 0x1_0000 == d2 + 0x100 * d3;
  }

  /** A level written with one record of each kind, in tag order, followed
      by the creator record and whatever comes after it. */
  function EncodeLevel(version: byte, w: byte, h: byte, subtypes: seq<byte>, stateBytes: seq<byte>,
                       minClicks: nat, rest: seq<byte>): seq<byte>
    requires minClicks < 0x8000_0000
  {
    [version, WidthDef, w, HeightDef, h, SubtypesDef] + subtypes + [StatesDef] + stateBytes +
    [MinimumClickDef] + LeBytes(minClicks) + [CreatorDef] + rest
  }

  /** A width record that fits the stream sets the width. */
  lemma WidthStep(x: seq<byte>, i: nat, st: Fields)
    requires i + 1 < |x| && x[i] == WidthDef
    ensures ScanFrom(x, i, st) == ScanFrom(x, i + 2, st.(width := x[i + 1] as nat))
  {
  }

  /** A height record that fits the stream sets the height. */
  lemma HeightStep(x: seq<byte>, i: nat, st: Fields)
    requires i + 1 < |x| && x[i] == HeightDef
    ensures ScanFrom(x, i, st) == ScanFrom(x, i + 2, st.(height := x[i + 1] as nat))
  {
  }

  /** The creator record ends parsing. */
  lemma CreatorStep(x: seq<byte>, i: nat, st: Fields)
    requires i < |x| && x[i] == CreatorDef
    ensures ScanFrom(x, i, st) == Parsed(Finish(st))
  {
  }

  /** A subtypes record that fits the stream appends its `t` payload
      bytes, and parsing goes on at `j`, past them. */
  lemma SubtypesStep(x: seq<byte>, i: nat, st: Fields, t: nat, j: nat, subtypes: seq<byte>)
    requires i < |x| && x[i] == SubtypesDef && t == st.width * st.height
    requires t <= 255 && j == i + 1 + t && j <= |x| && subtypes == st.subtypes + x[i + 1..j]
    ensures ScanFrom(x, i, st) == ScanFrom(x, j, st.(totalButtons := t, subtypes := subtypes))
  {
  }

  /** A states record that fits the stream replaces the state array with
      its `c` payload bytes, and parsing goes on at `j`, past them. */
  lemma StatesStep(x: seq<byte>, i: nat, st: Fields, c: nat, j: nat, stateBytes: seq<byte>)
    requires i < |x| && x[i] == StatesDef && 1 <= st.totalButtons && c == (st.totalButtons - 1) / 8 + 1
    requires j == i + 1 + c && j <= |x| && stateBytes == x[i + 1..j]
    ensures ScanFrom(x, i, st) == ScanFrom(x, j, st.(states := Bits(ToBv(stateBytes), 8 * c)))
  {
  }

  /** A minimum-click record holding a non-negative count stores it. */
  lemma MinimumClickStep(x: seq<byte>, i: nat, st: Fields, a: nat)
    requires i + 5 <= |x| && x[i] == MinimumClickDef && I32FromLe(x[i + 1..i + 5]) == a
    ensures ScanFrom(x, i, st) == ScanFrom(x, i + 5, st.(minClicks := a))
  {
  }

  /** Where each record of an encoded level sits. */
  lemma EncodeLayout(version: byte, w: byte, h: byte, subtypes: seq<byte>, stateBytes: seq<byte>,
                     minClicks: nat, rest: seq<byte>)
    requires minClicks < 0x8000_0000
    ensures var x, p, q := EncodeLevel(version, w, h, subtypes, stateBytes, minClicks, rest),
                           6 + |subtypes|, 7 + |subtypes| + |stateBytes|;
      q + 5 < |x| &&
      x[1] == WidthDef && x[2] == w && x[3] == HeightDef && x[4] == h && x[5] == SubtypesDef &&
      x[6..p] == subtypes && x[p] == StatesDef &&
      x[p + 1..q] == stateBytes && x[q] == MinimumClickDef &&
      x[q + 1..q + 5] == LeBytes(minClicks) && x[q + 5] == CreatorDef
  {
  }

  /** The header records of an encoded level: width, then height. */
  lemma ParseHeader(x: seq<byte>, w: byte, h: byte)
    requires 5 < |x| && x[1] == WidthDef && x[2] == w && x[3] == HeightDef && x[4] == h
    ensures Parse(x) == ScanFrom(x, 5, Initial().(width := w as nat, height := h as nat))
  {
    WidthStep(x, 1, Initial());
    HeightStep(x, 3, Initial().(width := w as nat));
  }

  /** The payload records of an encoded level: subtypes, then states. */
  lemma ParsePayload(x: seq<byte>, st: Fields, subtypes: seq<byte>, stateBytes: seq<byte>, p: nat, q: nat)
    requires 1 <= st.width * st.height <= 255 && st.subtypes == []
    requires |subtypes| == st.width * st.height && |stateBytes| == ByteCount(|subtypes|)
    requires p == 6 + |subtypes| && q == p + 1 + |stateBytes| && q <= |x|
    requires x[5] == SubtypesDef && x[6..p] == subtypes && x[p] == StatesDef && x[p + 1..q] == stateBytes
    ensures ScanFrom(x, 5, st) ==
            ScanFrom(x, q, st.(totalButtons := |subtypes|, subtypes := subtypes).(states := Bits(ToBv(stateBytes), 8 * |stateBytes|)))
  {
    var t, c := |subtypes|, |stateBytes|;
    assert (t - 1) / 8 + 1 == c;
    var s3 := st.(totalButtons := t, subtypes := subtypes);
    SubtypesStep(x, 5, st, t, p, subtypes);
    StatesStep(x, p, s3, c, q, stateBytes);
  }

  /** The closing records of an encoded level: the minimum click count,
      then the creator record. */
  lemma ParseTrailer(x: seq<byte>, q: nat, st: Fields, minClicks: nat)
    requires minClicks < 0x8000_0000
    requires q + 5 < |x| && x[q] == MinimumClickDef && x[q + 1..q + 5] == LeBytes(minClicks) && x[q + 5] == CreatorDef
    ensures ScanFrom(x, q, st) == Parsed(Finish(st.(minClicks := minClicks)))
  {
    LeBytesRoundTrip(minClicks);
    MinimumClickStep(x, q, st, minClicks);
    CreatorStep(x, q + 5, st.(minClicks := minClicks));
  }

  /** Parsing what a level editor writes gives the level back: the width
      and height bytes, exactly `w * h` subtypes, `ByteCount(w * h)` state
      bytes as an array of eight bits per byte, and the minimum click count.
      Payload bytes are never read as tags, and nothing after the creator
      record is read. */
  lemma EncodeParseRoundTrip(version: byte, w: byte, h: byte, subtypes: seq<byte>, stateBytes: seq<byte>,
                             minClicks: nat, rest: seq<byte>)
    requires 1 <= (w as nat) * (h as nat) <= 255
    requires |subtypes| == (w as nat) * (h as nat) && |stateBytes| == ByteCount(|subtypes|)
    requires minClicks < 0x8000_0000
    ensures Parse(EncodeLevel(version, w, h, subtypes, stateBytes, minClicks, rest)) ==
            Parsed(ToggleLevel(w as nat, h as nat, subtypes, Bits(ToBv(stateBytes), 8 * |stateBytes|), minClicks))
  {
    var x := EncodeLevel(version, w, h, subtypes, stateBytes, minClicks, rest);
    var p, q := 6 + |subtypes|, 7 + |subtypes| + |stateBytes|;
    EncodeLayout(version, w, h, subtypes, stateBytes, minClicks, rest);
    var s2 := Initial().(width := w as nat, height := h as nat);
    var s4 := s2.(totalButtons := |subtypes|, subtypes := subtypes).(states := Bits(ToBv(stateBytes), 8 * |stateBytes|));
    ParseHeader(x, w, h);
    ParsePayload(x, s2, subtypes, stateBytes, p, q);
    ParseTrailer(x, q, s4, minClicks);
  }

  /** A stream with no records gives the defaults: ToggleLevel::new with a
      1 by 1 size, so no subtypes, an empty state array and no minimum
      click count. */
  lemma NoRecordsGiveDefaults(version: byte, rest: seq<byte>)
    ensures Parse([version]) == Parsed(EmptyLevel().(width := 1, height := 1))
    ensures Parse([version, CreatorDef] + rest) == Parsed(EmptyLevel().(width := 1, height := 1))
  {
    var x := [version, CreatorDef] + rest;
    assert x[1] == CreatorDef;
  }

  /** The last width record wins. */
  lemma LastWidthWins(version: byte, a: byte, b: byte)
    ensures Parse([version, WidthDef, a, WidthDef, b]) == Parsed(ToggleLevel(b as nat, 1, [], Bits([], 0), 0))
  {
    var x := [version, WidthDef, a, WidthDef, b];
    var s1 := Initial().(width := a as nat);
    assert ScanFrom(x, 3, s1) == ScanFrom(x, 5, s1.(width := b as nat));
  }

  /** A states record before any subtypes record reads one byte, since the
      button count starts at 1. */
  lemma StatesBeforeSubtypes(version: byte, s: byte)
    ensures Parse([version, StatesDef, s]) == Parsed(ToggleLevel(1, 1, [], Bits(ToBv([s]), 8), 0))
  {
    var x := [version, StatesDef, s];
    assert x[2..3] == [s];
    assert ScanFrom(x, 1, Initial()) == ScanFrom(x, 3, Initial().(states := Bits(ToBv([s]), 8)));
  }

  /** A zero width makes the button count 0, and a later states record then
      underflows. */
  lemma ZeroButtonsPanic(version: byte)
    ensures Parse([version, WidthDef, 0, SubtypesDef, StatesDef]) == Panicked(NoButtons)
  {
    var x := [version, WidthDef, 0, SubtypesDef, StatesDef];
    var s1 := Initial().(width := 0);
    assert x[4..4] == [];
    assert ScanFrom(x, 3, s1) == ScanFrom(x, 4, s1.(totalButtons := 0, subtypes := []));
  }

  /** A width record cut off by the end of the stream, and a width times
      height above 255, both panic. */
  lemma MalformedPanics(version: byte)
    ensures Parse([version, WidthDef]) == Panicked(ReadPastEnd)
    ensures Parse([version, WidthDef, 16, HeightDef, 16, SubtypesDef]) == Panicked(ProductOverflow)
  {
    var x := [version, WidthDef, 16, HeightDef, 16, SubtypesDef];
    var s1 := Initial().(width := 16);
    assert ScanFrom(x, 3, s1) == ScanFrom(x, 5, s1.(height := 16));
  }
}
