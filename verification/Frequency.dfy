/** The clock rate the video engine driver picks for the decoder and encoder channels it knows of. */
module Frequency {
  import opened Parts

  // struct ve_case_load_param
  datatype LoadParam = LoadParam(width: int, height: int, frameRate: int, format: int, remove: int, thread: int) {
    // width * height * frame_rate, with the default frame rate where none is given
    function Pixels(): int { width * height * (if frameRate <= 0 then 60 else frameRate) }
  }

  // VE_DECODER_FORMAT_H264, _H265, _VP9, _OTHER and _MAX
  const H264 := 2
  const H265 := 3
  const VP9 := 4
  const OTHER := 5
  const DECODER_MAX := 0x100

  const MAX_PIXELS := 1990656000  // 7680 * 4320 * 60
  const MAX_FREQ := 900

  // One row of decoder_perform_sun55iw3
  datatype Row = Row(format: int, start: int, end: int, freq: int)

  const TABLE: seq<Row> := [
    Row(H264, 0, 56524800, 100), Row(H264, 56524801, 62668800, 200),
    Row(H264, 62668801, 125337600, 350), Row(H264, 125337601, MAX_PIXELS, MAX_FREQ),
    Row(H265, 0, 56524800, 100), Row(H265, 56524801, 62668800, 150),
    Row(H265, 62668801, 125337600, 350), Row(H265, 125337601, MAX_PIXELS, MAX_FREQ),
    Row(VP9, 0, 56524800, 150), Row(VP9, 56524801, 62668800, 200),
    Row(VP9, 62668801, 125337600, 350), Row(VP9, 125337601, MAX_PIXELS, MAX_FREQ),
    Row(OTHER, 0, MAX_PIXELS, MAX_FREQ)]

  predicate Matches(r: Row, format: int, total: int) { r.format == format && r.start <= total <= r.end }

  // The first row of the table that matches, or the table's length
  function FindRow(rows: seq<Row>, format: int, total: int): (i: nat)
    ensures i <= |rows|
    ensures i < |rows| ==> Matches(rows[i], format, total)
    ensures forall k :: 0 <= k < i ==> !Matches(rows[k], format, total)
  {
    if rows == [] then 0
    else if Matches(rows[0], format, total) then 0
    else 1 + FindRow(rows[1..], format, total)
  }

  // What the driver does: nothing, or ask for a rate in MHz
  datatype Decision = Leave | Ask(mhz: int)

  // The sum of the loads in a u32
  function Total(live: seq<LoadParam>): nat {
    if live == [] then 0 else (Total(live[..|live| - 1]) + live[|live| - 1].Pixels()) % 0x1_0000_0000
  }

  function Encoders(live: seq<LoadParam>): nat {
    if live == [] then 0
    else Encoders(live[..|live| - 1]) + (if live[|live| - 1].format >= DECODER_MAX then 1 else 0)
  }

  // previous_codec_format: -1 stands for none seen yet
  function Previous(live: seq<LoadParam>): int {
    if live == [] then -1
    else if Previous(live[..|live| - 1]) == -1 then live[|live| - 1].format
    else Previous(live[..|live| - 1])
  }

  // had_different_codec_channel
  predicate Different(live: seq<LoadParam>) {
    live != [] && (Different(live[..|live| - 1]) || Previous(live) != live[|live| - 1].format)
  }

  function ByTable(format: int, total: int, user: int): Decision {
    var i := FindRow(TABLE, format, total);
    if i == |TABLE| then Leave else Ask(if TABLE[i].freq == MAX_FREQ then user else TABLE[i].freq)
  }

  // adjust_ve_freq_by_case_load_sun55iw3, for the live entries in slot order
  function Decide(live: seq<LoadParam>, user: int): Decision {
    if live == [] then Leave
    else if Encoders(live) > 0 || |live| - Encoders(live) > 2 || Different(live) then Ask(user)
    else ByTable(live[|live| - 1].format, Total(live), user)
  }

  // ----- Placement does not matter

  lemma {:induction false} EncodersBound(live: seq<LoadParam>)
    ensures Encoders(live) <= |live|
    ensures Encoders(live) == 0 <==> forall i :: 0 <= i < |live| ==> live[i].format < DECODER_MAX
  {
    if live != [] {
      EncodersBound(live[..|live| - 1]);
    }
  }

  // Three or more channels, or any encoder: the user's rate
  lemma ManyChannels(live: seq<LoadParam>, user: int)
    requires |live| > 2 || exists i :: 0 <= i < |live| && live[i].format >= 0x100
    ensures Decide(live, user) == Ask(user)
  {
    EncodersBound(live);
  }

  // One decoder: the table decides on width * height * frame rate, where 60 stands for no frame rate.
  lemma OneDecoder(x: LoadParam, user: int)
    requires x.format < 0x100
    ensures Decide([x], user)
      == ByTable(x.format, (x.width * x.height * (if x.frameRate <= 0 then 60 else x.frameRate)) % 0x1_0000_0000, user)
  {
    Unfold1(x);
  }

  lemma Unfold1(x: LoadParam)
    ensures Total([x]) == x.Pixels() % 0x1_0000_0000 && Previous([x]) == x.format && !Different([x])
    ensures Encoders([x]) == if x.format >= DECODER_MAX then 1 else 0
  {
  }

  lemma Unfold2(x: LoadParam, y: LoadParam)
    ensures Total([x, y]) == (x.Pixels() + y.Pixels()) % 0x1_0000_0000
    ensures Different([x, y]) <==> x.format != -1 && x.format != y.format
  {
    assert [x, y][..1] == [x];
    Unfold1(x);
    AddWrapped(x.Pixels(), y.Pixels());
  }

  // Two decoders: the table decides only if their formats agree, or if the first one's is -1,
  // which the driver takes for no format seen yet.
  lemma TwoDecoders(x: LoadParam, y: LoadParam, user: int)
    requires x.format < 0x100 && y.format < 0x100
    ensures var a := x.width * x.height * (if x.frameRate <= 0 then 60 else x.frameRate);
      var b := y.width * y.height * (if y.frameRate <= 0 then 60 else y.frameRate);
      Decide([x, y], user)
        == if x.format != -1 && x.format != y.format then Ask(user)
           else ByTable(y.format, (a + b) % 0x1_0000_0000, user)
  {
    EncodersBound([x, y]);
    Unfold2(x, y);
  }

  // Two decoders of which exactly one has format -1: the order in the table matters unless the
  // table row of the other one asks for the user's rate anyway.
  predicate OrderMatters(live: seq<LoadParam>, user: int) {
    && |live| == 2 && live[0].format < DECODER_MAX && live[1].format < DECODER_MAX
    && (live[0].format == -1) != (live[1].format == -1)
    && var f := if live[0].format == -1 then live[1].format else live[0].format;
       ByTable(f, (live[0].Pixels() + live[1].Pixels()) % 0x1_0000_0000, user) != Ask(user)
  }

  lemma OrdersOfTwo(a: seq<LoadParam>, b: seq<LoadParam>)
    requires |a| == 2 && multiset(a) == multiset(b)
    ensures b == a || b == [a[1], a[0]]
  {
    assert |multiset(b)| == |b|;
    assert a == [a[0], a[1]] && b == [b[0], b[1]];
    assert b[0] in multiset(a) && b[1] in multiset(a);
    assert multiset(b) == multiset{b[0], b[1]} && multiset(a) == multiset{a[0], a[1]};
  }

  // Reordering keeps the length and the members.
  lemma SameMembers(a: seq<LoadParam>, b: seq<LoadParam>)
    requires multiset(a) == multiset(b)
    ensures |a| == |b|
    ensures forall i :: 0 <= i < |a| ==> a[i] in b
  {
    assert |multiset(a)| == |a| && |multiset(b)| == |b|;
    forall i | 0 <= i < |a|
      ensures a[i] in b
    {
      assert a[i] in multiset(b);
    }
  }

  predicate UserRate(live: seq<LoadParam>) {
    |live| > 2 || exists i :: 0 <= i < |live| && live[i].format >= DECODER_MAX
  }

  lemma UserRateKept(a: seq<LoadParam>, b: seq<LoadParam>)
    requires multiset(a) == multiset(b) && UserRate(a)
    ensures UserRate(b)
  {
    SameMembers(a, b);
    if |a| <= 2 {
      var i :| 0 <= i < |a| && a[i].format >= DECODER_MAX;
      assert a[i] in b;
    }
  }

  lemma SameWhenReordered(a: seq<LoadParam>, b: seq<LoadParam>, user: int)
    requires multiset(a) == multiset(b) && !OrderMatters(a, user)
    ensures Decide(a, user) == Decide(b, user)
  {
    hide Decide, ByTable;
    SameMembers(a, b);
    if UserRate(a) {
      UserRateKept(a, b);
      ManyChannels(a, user);
      ManyChannels(b, user);
    } else if |a| == 2 {
      OrdersOfTwo(a, b);
      assert a == [a[0], a[1]];
      TwoDecoders(a[0], a[1], user);
      TwoDecoders(a[1], a[0], user);
    } else {
      if |a| == 1 {
        assert a[0] in b;
      }
      assert b == a;
    }
  }

  // The decision depends only on which entries are live, not on the slots they are in, exactly
  // when there are not two decoders of which one has format -1 and the other one's row matters.
  lemma PlacementIrrelevantIff(a: seq<LoadParam>, user: int)
    ensures (forall b :: multiset(b) == multiset(a) ==> Decide(b, user) == Decide(a, user)) <==> !OrderMatters(a, user)
  {
    hide Decide, ByTable;
    if !OrderMatters(a, user) {
      forall b | multiset(b) == multiset(a)
        ensures Decide(b, user) == Decide(a, user)
      {
        SameWhenReordered(a, b, user);
      }
    } else {
      var b := [a[1], a[0]];
      assert a == [a[0], a[1]];
      assert multiset(b) == multiset(a);
      TwoDecoders(a[0], a[1], user);
      TwoDecoders(a[1], a[0], user);
    }
  }

  // In particular the order does not matter where no channel has format -1.
  lemma PlacementIrrelevant(a: seq<LoadParam>, b: seq<LoadParam>, user: int)
    requires multiset(a) == multiset(b) && forall x :: x in a ==> x.format != -1
    ensures Decide(a, user) == Decide(b, user)
  {
    assert |a| == 2 ==> a[0] in a && a[1] in a;
    hide Decide, ByTable;
    SameWhenReordered(a, b, user);
  }

  // A concrete case: one H264 channel of 640 x 480 at 30 frames next to a channel of format -1
  lemma PlacementExample()
    ensures var x, y := LoadParam(0, 0, 30, -1, 0, 1), LoadParam(640, 480, 30, H264, 0, 2);
      Decide([x, y], 500) == Ask(100) && Decide([y, x], 500) == Ask(500)
  {
    var x, y := LoadParam(0, 0, 30, -1, 0, 1), LoadParam(640, 480, 30, H264, 0, 2);
    hide Decide, ByTable;
    TwoDecoders(x, y, 500);
    TwoDecoders(y, x, 500);
    RateByLoad(H264, 9216000, 500);
  }

  // ----- The rate as a function of the load

  predicate Known(format: int) { format == H264 || format == H265 || format == VP9 }

  // The bounds of the four levels
  function Start(level: nat): nat {
    if level == 0 then 0 else if level == 1 then 56524801 else if level == 2 then 62668801 else 125337601
  }

  function Level(total: nat): (level: nat)
    requires total <= MAX_PIXELS
    ensures level < 4 && Start(level) <= total && (level < 3 ==> total < Start(level + 1))
  {
    if total <= 56524800 then 0 else if total <= 62668800 then 1 else if total <= 125337600 then 2 else 3
  }

  lemma MatchesAt(k: nat, format: int, total: nat)
    requires Known(format) && k < |TABLE|
    ensures Matches(TABLE[k], format, total) <==> total <= MAX_PIXELS && k == 4 * (format - H264) + Level(total)
  {
  }

  // A load within the table's bound matches exactly one row; a load beyond it matches none.
  lemma ExactlyOneRow(format: int, total: nat)
    requires Known(format)
    ensures FindRow(TABLE, format, total) == if total <= MAX_PIXELS then 4 * (format - H264) + Level(total) else |TABLE|
    ensures forall k :: 0 <= k < |TABLE| ==> (Matches(TABLE[k], format, total) <==> k == FindRow(TABLE, format, total))
  {
    hide Matches, Level, Start, FindRow;
    assert |TABLE| == 13;
    hide TABLE;
    forall k: nat | k < |TABLE|
      ensures Matches(TABLE[k], format, total) <==> total <= MAX_PIXELS && k == 4 * (format - H264) + Level(total)
    {
      MatchesAt(k, format, total);
    }
    if total <= MAX_PIXELS {
      var target := 4 * (format - H264) + Level(total);
      assert 0 <= target < |TABLE| && Matches(TABLE[target], format, total);
    }
  }

  // No row of the table is of another format; that of VE_DECODER_FORMAT_OTHER matches up to the bound.
  lemma OtherRows(format: int, total: nat)
    requires !Known(format)
    ensures FindRow(TABLE, format, total) == if format == OTHER && total <= MAX_PIXELS then 12 else |TABLE|
  {
    assert |TABLE| == 13 && forall k :: 0 <= k < 12 ==> Known(TABLE[k].format);
    assert TABLE[12] == Row(OTHER, 0, MAX_PIXELS, MAX_FREQ);
    hide FindRow;
  }

  // The rate by format (2 is H264, 3 is H265, 4 is VP9 and 5 is any other) and load: beyond the table's
  // bound, and for formats the table does not list, the driver does nothing.
  lemma RateByLoad(format: int, total: nat, user: int)
    ensures ByTable(format, total, user) ==
      if format < 2 || format > 5 || total > 7680 * 4320 * 60 then Leave
      else if format == 5 then Ask(user)
      else Ask(if total <= 1280 * 736 * 60 then (if format == 4 then 150 else 100)
               else if total <= 1920 * 1088 * 30 then (if format == 3 then 150 else 200)
               else if total <= 1920 * 1088 * 60 then 350
               else user)
  {
    if Known(format) {
      ExactlyOneRow(format, total);
    } else {
      OtherRows(format, total);
    }
    hide FindRow, Matches;
  }

  // More load never means a lower rate, exactly when the user's setting is at least 350 MHz.
  lemma MonotoneIff(format: int, user: int)
    requires Known(format)
    ensures (forall p: nat, q: nat :: p <= q <= MAX_PIXELS ==>
        ByTable(format, p, user).Ask? && ByTable(format, q, user).Ask?
        && ByTable(format, p, user).mhz <= ByTable(format, q, user).mhz)
      <==> user >= 350
  {
    hide ByTable;
    if user >= 350 {
      forall p: nat, q: nat | p <= q <= MAX_PIXELS
        ensures ByTable(format, p, user).Ask? && ByTable(format, q, user).Ask?
        ensures ByTable(format, p, user).mhz <= ByTable(format, q, user).mhz
      {
        RateByLoad(format, p, user);
        RateByLoad(format, q, user);
      }
    } else {
      RateByLoad(format, 125337600, user);
      RateByLoad(format, 125337601, user);
    }
  }

  // One decoder of a listed format whose load does not wrap
  lemma OneSmallLoad(x: LoadParam, load: nat, user: int)
    requires 2 <= x.format <= 4 && load <= 7680 * 4320 * 60
    requires load == x.width * x.height * (if x.frameRate <= 0 then 60 else x.frameRate)
    ensures Total([x]) == load && Decide([x], user) == ByTable(x.format, load, user)
    ensures Decide([x], user) ==
      Ask(if load <= 1280 * 736 * 60 then (if x.format == 4 then 150 else 100)
          else if load <= 1920 * 1088 * 30 then (if x.format == 3 then 150 else 200)
          else if load <= 1920 * 1088 * 60 then 350
          else user)
  {
    hide ByTable, Decide;
    OneDecoder(x, user);
    Unfold1(x);
    RateByLoad(x.format, load, user);
  }

  // Two decoders of one listed format: the sum of two loads within the table's bound does not wrap.
  lemma TwoSmallLoads(x: LoadParam, a: nat, y: LoadParam, b: nat, user: int)
    requires 2 <= x.format == y.format <= 4 && a <= 7680 * 4320 * 60 && b <= 7680 * 4320 * 60
    requires a == x.width * x.height * (if x.frameRate <= 0 then 60 else x.frameRate)
    requires b == y.width * y.height * (if y.frameRate <= 0 then 60 else y.frameRate)
    ensures Total([x, y]) == a + b && Decide([x, y], user) == ByTable(x.format, a + b, user)
    ensures Decide([x, y], user) ==
      if a + b > 7680 * 4320 * 60 then Leave
      else Ask(if a + b <= 1280 * 736 * 60 then (if x.format == 4 then 150 else 100)
               else if a + b <= 1920 * 1088 * 30 then (if x.format == 3 then 150 else 200)
               else if a + b <= 1920 * 1088 * 60 then 350
               else user)
  {
    hide ByTable, Decide;
    TwoDecoders(x, y, user);
    Unfold2(x, y);
    RateByLoad(x.format, a + b, user);
  }

  // A 1920 x 1088 H264 decoder, at 60 frames or with no frame rate given, asks for 350 MHz.
  lemma FullHdExample(user: int)
    ensures Decide([LoadParam(1920, 1088, 60, 2, 0, 1)], user) == Ask(350)
    ensures Decide([LoadParam(1920, 1088, 0, 2, 0, 1)], user) == Ask(350)
  {
    hide Decide;
    OneSmallLoad(LoadParam(1920, 1088, 60, 2, 0, 1), 125337600, user);
    OneSmallLoad(LoadParam(1920, 1088, 0, 2, 0, 1), 125337600, user);
  }

  // One or two channels of the same known format, whose load is within the table's bound
  predicate Decoders(live: seq<LoadParam>, format: int) {
    && Known(format) && 1 <= |live| <= 2
    && (forall i :: 0 <= i < |live| ==> live[i].format == format && 0 <= live[i].Pixels())
    && Load(live) <= MAX_PIXELS
  }

  function Load(live: seq<LoadParam>): int {
    if live == [] then 0 else Load(live[..|live| - 1]) + live[|live| - 1].Pixels()
  }

  lemma Loads(x: LoadParam, y: LoadParam)
    ensures Load([x]) == x.Pixels() && Load([x, y]) == x.Pixels() + y.Pixels()
  {
    assert [x, y][..1] == [x] && [x][..0] == [];
  }

  lemma DecodersByTable(live: seq<LoadParam>, format: int, user: int)
    requires Decoders(live, format)
    ensures Load(live) >= 0 && Decide(live, user) == ByTable(format, Load(live), user)
  {
    hide Decide, ByTable, Load;
    if |live| == 1 {
      assert live == [live[0]];
      Loads(live[0], live[0]);
      OneSmallLoad(live[0], live[0].Pixels(), user);
    } else {
      assert live == [live[0], live[1]];
      Loads(live[0], live[1]);
      TwoSmallLoads(live[0], live[0].Pixels(), live[1], live[1].Pixels(), user);
    }
  }

  // One decoder with a load of the given size
  function Sized(format: int, load: nat): seq<LoadParam> { [LoadParam(load, 1, 1, format, 0, 0)] }

  lemma SizedIs(format: int, load: nat)
    requires Known(format) && load <= MAX_PIXELS
    ensures Decoders(Sized(format, load), format) && Load(Sized(format, load)) == load
  {
    var x := LoadParam(load, 1, 1, format, 0, 0);
    Loads(x, x);
  }

  // The driver's decision for one or two decoders: more load never means a lower rate, exactly when
  // the user's setting is at least 350 MHz.
  lemma DecisionMonotoneIff(format: int, user: int)
    requires Known(format)
    ensures (forall a, b :: Decoders(a, format) && Decoders(b, format) && Load(a) <= Load(b) ==>
        NotLower(Decide(a, user), Decide(b, user)))
      <==> user >= 350
  {
    hide ByTable, Decide, Load, Decoders, Sized;
    forall a, b | Decoders(a, format) && Decoders(b, format) && Load(a) <= Load(b) && user >= 350
      ensures NotLower(Decide(a, user), Decide(b, user))
    {
      DecidedRate(a, format, user);
      DecidedRate(b, format, user);
    }
    SizedIs(format, 125337600);
    SizedIs(format, 125337601);
    DecidedRate(Sized(format, 125337600), format, user);
    DecidedRate(Sized(format, 125337601), format, user);
  }

  predicate NotLower(low: Decision, high: Decision) { low.Ask? && high.Ask? && low.mhz <= high.mhz }

  lemma DecidedRate(live: seq<LoadParam>, format: int, user: int)
    requires Decoders(live, format)
    ensures 0 <= Load(live) <= MAX_PIXELS && Decide(live, user) ==
      Ask(if Load(live) <= 56524800 then (if format == VP9 then 150 else 100)
          else if Load(live) <= 62668800 then (if format == H265 then 150 else 200)
          else if Load(live) <= 125337600 then 350
          else user)
  {
    hide ByTable, Decide, Load;
    DecodersByTable(live, format, user);
    RateByLoad(format, Load(live), user);
  }
}
