/** The field catalogs SH_def (binary file header) and STH_def (trace header):
    for each field a name, a byte position, a type tag and an element count. */
module Catalog {
  import opened Wrappers
  import opened Values
  import opened Bytes

  /** One catalog entry, {"pos": pos, "type": TagName(prim), "n": count}; entries
      without "n" have count 1. */
  datatype FieldDef = FieldDef(name: string, pos: nat, prim: Prim, count: nat)

  /** The first byte after the field, counting all of its `count` elements. */
  function End(f: FieldDef): nat
  {
    f.pos + Size(f.prim) * f.count
  }

  /** Whether byte `b` belongs to field `f`. */
  predicate Covers(f: FieldDef, b: int)
  {
    f.pos <= b < End(f)
  }

  /** SH_def in declaration order. Positions are absolute file offsets: the
      binary file header follows the 3200-byte textual header. */
  function ShDef(): (c: seq<FieldDef>)
    ensures |c| == 32 && c[0].pos == 3200 && End(c[|c| - 1]) == 3600
  {
    ShDefIdentification() + ShDefSweepAndGain() + ShDefReserved()
  }

  /** SH_def, bytes 3200-3231: job, line and reel numbers, trace counts per
      ensemble, sample interval and count, sample format, fold, sorting and
      vertical sum code. */
  function ShDefIdentification(): seq<FieldDef>
  {
    [
      FieldDef("Job",                       3200, Int32,    1),
      FieldDef("Line",                      3204, Int32,    1),
      FieldDef("Reel",                      3208, Int32,    1),
      FieldDef("DataTracePerEnsemble",      3212, Int16,    1),
      FieldDef("AuxiliaryTracePerEnsemble", 3214, Int16,    1),
      FieldDef("dt",                        3216, UInt16,   1),
      FieldDef("dtOrig",                    3218, UInt16,   1),
      FieldDef("ns",                        3220, UInt16,   1),
      FieldDef("nsOrig",                    3222, UInt16,   1),
      FieldDef("DataSampleFormat",          3224, Int16,    1),
      FieldDef("EnsembleFold",              3226, Int16,    1),
      FieldDef("TraceSorting",              3228, Int16,    1),
      FieldDef("VerticalSumCode",           3230, Int16,    1)
    ]
  }

  /** SH_def, bytes 3232-3259: sweep and taper settings, correlation, gain,
      units and polarity. */
  function ShDefSweepAndGain(): seq<FieldDef>
  {
    [
      FieldDef("SweepFrequencyStart",       3232, UInt16,   1),
      FieldDef("SweepFrequencyEnd",         3234, Int16,    1),
      FieldDef("SweepLength",               3236, Int16,    1),
      FieldDef("SweepType",                 3238, Int16,    1),
      FieldDef("SweepChannel",              3240, Int16,    1),
      FieldDef("SweepTaperlengthStart",     3242, Int16,    1),
      FieldDef("SweepTaperLengthEnd",       3244, Int16,    1),
      FieldDef("TaperType",                 3246, Int16,    1),
      FieldDef("CorrelatedDataTraces",      3248, Int16,    1),
      FieldDef("BinaryGain",                3250, Int16,    1),
      FieldDef("AmplitudeRecoveryMethod",   3252, Int16,    1),
      FieldDef("MeasurementSystem",         3254, Int16,    1),
      FieldDef("ImpulseSignalPolarity",     3256, Int16,    1),
      FieldDef("VibratoryPolarityCode",     3258, Int16,    1)
    ]
  }

  /** SH_def, bytes 3260-3599: the two reserved ranges, read as int16 words, and
      the revision number, fixed-length flag and extended header count between them. */
  function ShDefReserved(): seq<FieldDef>
  {
    [
      FieldDef("Unassigned1",               3260, Int16,  120),
      FieldDef("SegyFormatRevisionNumber",  3500, UInt16,   1),
      FieldDef("FixedLengthTraceFlag",      3502, UInt16,   1),
      FieldDef("NumberOfExtTextualHeaders", 3504, UInt16,   1),
      FieldDef("Unassigned2",               3506, Int16,   47)
    ]
  }

  /** STH_def in declaration order, exactly as the module builds it; positions
      are relative to the start of each 240-byte trace header. */
  function StHDefAsWritten(): (c: seq<FieldDef>)
    ensures |c| == 91 && c[0].pos == 0 && End(c[|c| - 1]) == 240
    ensures c[GainTypeIndex].name == "GainType" && c[GainTypeIndex].pos == 119
    ensures c[ShotPointIndex].name == "ShotPoint" && c[ShotPointIndex].pos == 192
  {
    TraceIdentificationFields() + ElevationAndCoordinateFields() + VelocityStaticAndTimingFields()
      + GainAndSweepFields() + FilterFields() + RecordingTimeAndGeophoneFields()
      + PositionFields() + SourceFields()
  }

  /** STH_def, bytes 0-35: trace sequence numbers, field record, source point, CDP, trace identification and data use. */
  function TraceIdentificationFields(): seq<FieldDef>
  {
    [
      FieldDef("TraceSequenceLine",                         0, Int32,    1),
      FieldDef("TraceSequenceFile",                         4, Int32,    1),
      FieldDef("FieldRecord",                               8, Int32,    1),
      FieldDef("TraceNumber",                              12, Int32,    1),
      FieldDef("EnergySourcePoint",                        16, Int32,    1),
      FieldDef("cdp",                                      20, Int32,    1),
      FieldDef("cdpTrace",                                 24, Int32,    1),
      FieldDef("TraceIdenitifactionCode",                  28, UInt16,   1),
      FieldDef("NSummedTraces",                            30, Int16,    1),
      FieldDef("NStackedTraces",                           32, Int16,    1),
      FieldDef("DataUse",                                  34, Int16,    1)
    ]
  }

  /** STH_def, bytes 36-89: offset, elevations, depths, water depths, their scalars, source and group coordinates and coordinate units. */
  function ElevationAndCoordinateFields(): seq<FieldDef>
  {
    [
      FieldDef("offset",                                   36, Int32,    1),
      FieldDef("ReceiverGroupElevation",                   40, Int32,    1),
      FieldDef("SourceSurfaceElevation",                   44, Int32,    1),
      FieldDef("SourceDepth",                              48, Int32,    1),
      FieldDef("ReceiverDatumElevation",                   52, Int32,    1),
      FieldDef("SourceDatumElevation",                     56, Int32,    1),
      FieldDef("SourceWaterDepth",                         60, Int32,    1),
      FieldDef("GroupWaterDepth",                          64, Int32,    1),
      FieldDef("ElevationScalar",                          68, Int16,    1),
      FieldDef("SourceGroupScalar",                        70, Int16,    1),
      FieldDef("SourceX",                                  72, Int32,    1),
      FieldDef("SourceY",                                  76, Int32,    1),
      FieldDef("GroupX",                                   80, Int32,    1),
      FieldDef("GroupY",                                   84, Int32,    1),
      FieldDef("CoordinateUnits",                          88, Int16,    1)
    ]
  }

  /** STH_def, bytes 90-117: weathering velocities, uphole times, statics, lag, delay and mute times, ns and dt. */
  function VelocityStaticAndTimingFields(): seq<FieldDef>
  {
    [
      FieldDef("WeatheringVelocity",                       90, Int16,    1),
      FieldDef("SubWeatheringVelocity",                    92, Int16,    1),
      FieldDef("SourceUpholeTime",                         94, Int16,    1),
      FieldDef("GroupUpholeTime",                          96, Int16,    1),
      FieldDef("SourceStaticCorrection",                   98, Int16,    1),
      FieldDef("GroupStaticCorrection",                   100, Int16,    1),
      FieldDef("TotalStaticApplied",                      102, Int16,    1),
      FieldDef("LagTimeA",                                104, Int16,    1),
      FieldDef("LagTimeB",                                106, Int16,    1),
      FieldDef("DelayRecordingTime",                      108, Int16,    1),
      FieldDef("MuteTimeStart",                           110, Int16,    1),
      FieldDef("MuteTimeEND",                             112, Int16,    1),
      FieldDef("ns",                                      114, UInt16,   1),
      FieldDef("dt",                                      116, UInt16,   1)
    ]
  }

  /** STH_def, bytes 118-137: gain, correlation, sweep and taper lengths. */
  function GainAndSweepFields(): seq<FieldDef>
  {
    [
      FieldDef("GainType",                                119, Int16,    1),
      FieldDef("InstrumentGainConstant",                  120, Int16,    1),
      FieldDef("InstrumentInitialGain",                   122, Int16,    1),
      FieldDef("Correlated",                              124, Int16,    1),
      FieldDef("SweepFrequenceStart",                     126, Int16,    1),
      FieldDef("SweepFrequenceEnd",                       128, Int16,    1),
      FieldDef("SweepLength",                             130, Int16,    1),
      FieldDef("SweepType",                               132, Int16,    1),
      FieldDef("SweepTraceTaperLengthStart",              134, Int16,    1),
      FieldDef("SweepTraceTaperLengthEnd",                136, Int16,    1)
    ]
  }

  /** STH_def, bytes 138-155: taper type and filter settings. */
  function FilterFields(): seq<FieldDef>
  {
    [
      FieldDef("TaperType",                               138, Int16,    1),
      FieldDef("AliasFilterFrequency",                    140, Int16,    1),
      FieldDef("AliasFilterSlope",                        142, Int16,    1),
      FieldDef("NotchFilterFrequency",                    144, Int16,    1),
      FieldDef("NotchFilterSlope",                        146, Int16,    1),
      FieldDef("LowCutFrequency",                         148, Int16,    1),
      FieldDef("HighCutFrequency",                        150, Int16,    1),
      FieldDef("LowCutSlope",                             152, Int16,    1),
      FieldDef("HighCutSlope",                            154, Int16,    1)
    ]
  }

  /** STH_def, bytes 156-179: recording date and time, time base, trace weight, geophone group numbers, gap and overtravel. */
  function RecordingTimeAndGeophoneFields(): seq<FieldDef>
  {
    [
      FieldDef("YearDataRecorded",                        156, Int16,    1),
      FieldDef("DayOfYear",                               158, Int16,    1),
      FieldDef("HourOfDay",                               160, Int16,    1),
      FieldDef("MinuteOfHour",                            162, Int16,    1),
      FieldDef("SecondOfMinute",                          164, Int16,    1),
      FieldDef("TimeBaseCode",                            166, Int16,    1),
      FieldDef("TraceWeightningFactor",                   168, Int16,    1),
      FieldDef("GeophoneGroupNumberRoll1",                170, Int16,    1),
      FieldDef("GeophoneGroupNumberFirstTraceOrigField",  172, Int16,    1),
      FieldDef("GeophoneGroupNumberLastTraceOrigField",   174, Int16,    1),
      FieldDef("GapSize",                                 176, Int16,    1),
      FieldDef("OverTravel",                              178, Int16,    1)
    ]
  }

  /** STH_def, bytes 180-199: CDP coordinates, 3D lines and shot point. */
  function PositionFields(): seq<FieldDef>
  {
    [
      FieldDef("cdpX",                                    180, Int32,    1),
      FieldDef("cdpY",                                    184, Int32,    1),
      FieldDef("Inline3D",                                188, Int32,    1),
      FieldDef("Crossline3D",                             192, Int32,    1),
      FieldDef("ShotPoint",                               192, Int32,    1)
    ]
  }

  /** STH_def, bytes 200-239: shot point scalar, measurement units, transduction,
      source type and measurement, unassigned words. */
  function SourceFields(): seq<FieldDef>
  {
    [
      FieldDef("ShotPointScalar",                         200, Int16,    1),
      FieldDef("TraceValueMeasurementUnit",               202, Int16,    1),
      FieldDef("TransductionConstantMantissa",            204, Int32,    1),
      FieldDef("TransductionConstantPower",               208, Int16,    1),
      FieldDef("TransductionUnit",                        210, Int16,    1),
      FieldDef("TraceIdentifier",                         212, Int16,    1),
      FieldDef("ScalarTraceHeader",                       214, Int16,    1),
      FieldDef("SourceType",                              216, Int16,    1),
      FieldDef("SourceEnergyDirectionMantissa",           218, Int32,    1),
      FieldDef("SourceEnergyDirectionExponent",           222, Int16,    1),
      FieldDef("SourceMeasurementMantissa",               224, Int32,    1),
      FieldDef("SourceMeasurementExponent",               228, Int16,    1),
      FieldDef("SourceMeasurementUnit",                   230, Int16,    1),
      FieldDef("UnassignedInt1",                          232, Int32,    1),
      FieldDef("UnassignedInt2",                          236, Int32,    1)
    ]
  }

  /** GainType where its own comment and SEG-Y revision 1 put it: bytes 118-119. */
  const GainTypeAt118 := FieldDef("GainType", 118, Int16, 1)

  /** ShotPoint where its own comment and SEG-Y revision 1 put it: bytes 196-199. */
  const ShotPointAt196 := FieldDef("ShotPoint", 196, Int32, 1)

  /** Where GainType and ShotPoint sit in STH_def. */
  const GainTypeIndex := 40
  const ShotPointIndex := 75

  /** STH_def with its two misplaced fields moved to the positions their own
      comments give; every other entry is as written. */
  function StHDef(): (c: seq<FieldDef>)
    ensures |c| == 91 && c[GainTypeIndex] == GainTypeAt118 && c[ShotPointIndex] == ShotPointAt196
  {
    TraceIdentificationFields() + ElevationAndCoordinateFields() + VelocityStaticAndTimingFields()
      + GainAndSweepFields()[0 := GainTypeAt118] + FilterFields() + RecordingTimeAndGeophoneFields()
      + PositionFields()[4 := ShotPointAt196] + SourceFields()
  }

  /** The corrected STH_def differs from the one as written in the entries of
      GainType and ShotPoint and nowhere else. */
  lemma StHDefMovesTwoFields()
    ensures |StHDef()| == |StHDefAsWritten()|
    ensures StHDef()[GainTypeIndex] == GainTypeAt118 && StHDef()[ShotPointIndex] == ShotPointAt196
    ensures forall i :: 0 <= i < |StHDef()| && i != GainTypeIndex && i != ShotPointIndex ==> StHDef()[i] == StHDefAsWritten()[i]
  {
    var s1, s2, s3, g := TraceIdentificationFields(), ElevationAndCoordinateFields(), VelocityStaticAndTimingFields(), GainAndSweepFields();
    var s5, s6, p, s8 := FilterFields(), RecordingTimeAndGeophoneFields(), PositionFields(), SourceFields();
    SectionsReplaced(s1, s2, s3, g, s5, s6, p, s8, GainTypeAt118, ShotPointAt196);
  }

  /** Replacing the first entry of the fourth section and the fifth of the
      seventh changes the joined catalog at those two indices only. */
  lemma SectionsReplaced(s1: seq<FieldDef>, s2: seq<FieldDef>, s3: seq<FieldDef>, g: seq<FieldDef>,
                         s5: seq<FieldDef>, s6: seq<FieldDef>, p: seq<FieldDef>, s8: seq<FieldDef>,
                         x: FieldDef, y: FieldDef)
    requires |g| >= 1 && |p| >= 5
    ensures var before := s1 + s2 + s3 + g + s5 + s6 + p + s8;
            var after := s1 + s2 + s3 + g[0 := x] + s5 + s6 + p[4 := y] + s8;
            var i, j := |s1| + |s2| + |s3|, |s1| + |s2| + |s3| + |g| + |s5| + |s6| + 4;
            && |after| == |before|
            && after[i] == x && after[j] == y
            && forall k :: 0 <= k < |before| && k != i && k != j ==> after[k] == before[k]
  {
  }

  /** The keys of the dictionary a catalog builds. */
  function Names(c: seq<FieldDef>): set<string>
  {
    set f | f in c :: f.name
  }

  /** catalog[name]: the dictionary is built by assigning entries in order, so a
      name given twice keeps its last definition; a missing name is a KeyError. */
  function Lookup(c: seq<FieldDef>, name: string): (r: Option<FieldDef>)
    ensures r.Some? <==> name in Names(c)
    ensures r.Some? ==> r.value in c && r.value.name == name
  {
    if |c| == 0 then None
    else if c[|c| - 1].name == name then Some(c[|c| - 1])
    else
      assert forall f :: f in c <==> f in c[..|c| - 1] || f == c[|c| - 1];
      Lookup(c[..|c| - 1], name)
  }

  /** The entry at `i` is what the dictionary holds for its name when no later
      entry reuses that name. */
  lemma {:induction false} LookupAt(c: seq<FieldDef>, i: nat)
    requires i < |c|
    requires forall j :: i < j < |c| ==> c[j].name != c[i].name
    ensures Lookup(c, c[i].name) == Some(c[i])
  {
    if i < |c| - 1 {
      LookupAt(c[..|c| - 1], i);
    }
  }

  /** The fields of `c`, in order, lie edge to edge from byte `lo` to byte `hi`,
      each holding at least one element. */
  predicate Tiles(c: seq<FieldDef>, lo: nat, hi: nat)
  {
    && |c| > 0
    && c[0].pos == lo
    && End(c[|c| - 1]) == hi
    && Adjacent(c, 0, |c|)
    && Nonempty(c, 0, |c|)
  }

  /** Within c[a..b], each field ends where the next one starts. */
  predicate Adjacent(c: seq<FieldDef>, a: nat, b: nat)
  {
    b <= |c| && forall i :: a <= i && i + 1 < b ==> End(c[i]) == c[i + 1].pos
  }

  /** Within c[a..b], every field holds at least one element. */
  predicate Nonempty(c: seq<FieldDef>, a: nat, b: nat)
  {
    b <= |c| && forall i :: a <= i < b ==> c[i].count >= 1
  }

  /** A run of adjacent, non-empty fields from `lo` to `hi` is a tiling. */
  lemma TilesOfRun(c: seq<FieldDef>, a: nat, b: nat, lo: nat, hi: nat)
    requires a < b <= |c| && c[a].pos == lo && End(c[b - 1]) == hi
    requires Adjacent(c, a, b) && Nonempty(c, a, b)
    ensures Tiles(c[a..b], lo, hi)
  {
    var d := c[a..b];
    assert forall i :: 0 <= i < |d| ==> d[i] == c[a + i];
  }

  /** Every field of `c` has an integer type, as every entry of both catalogs does. */
  predicate IntegerTyped(c: seq<FieldDef>)
  {
    forall i :: 0 <= i < |c| ==> IsInteger(c[i].prim)
  }

  /** Fields i to j-1 of `c`, checked one after another: each holds at least one
      element of an integer type, and each but the last ends where the next
      starts. Written as a recursion so that it can be evaluated on a catalog
      section entry by entry. */
  predicate Chained(c: seq<FieldDef>, i: nat, j: nat)
    requires j <= |c|
    decreases j - i
  {
    || i >= j
    || (&& c[i].count >= 1
        && IsInteger(c[i].prim)
        && (i + 1 == j || End(c[i]) == c[i + 1].pos)
        && Chained(c, i + 1, j))
  }

  /** A chained run is adjacent, non-empty and integer-typed. */
  lemma {:induction false} ChainedRun(c: seq<FieldDef>, i: nat, j: nat)
    requires j <= |c| && Chained(c, i, j)
    ensures Adjacent(c, i, j) && Nonempty(c, i, j)
    ensures forall k :: i <= k < j ==> IsInteger(c[k].prim)
    decreases j - i
  {
    if i < j {
      ChainedRun(c, i + 1, j);
    }
  }

  /** Two tilings that meet at `mid` make one tiling. */
  lemma TilesAppend(a: seq<FieldDef>, b: seq<FieldDef>, lo: nat, mid: nat, hi: nat)
    requires Tiles(a, lo, mid) && Tiles(b, mid, hi)
    ensures Tiles(a + b, lo, hi)
  {
    var c := a + b;
    forall i | 0 <= i < |c| - 1
      ensures End(c[i]) == c[i + 1].pos
    {
      if i + 1 < |a| {
        assert c[i] == a[i] && c[i + 1] == a[i + 1];
      } else if i + 1 == |a| {
        assert c[i] == a[|a| - 1] && c[i + 1] == b[0];
      } else {
        assert c[i] == b[i - |a|] && c[i + 1] == b[i - |a| + 1];
      }
    }
  }

  /** In a tiling, an earlier field ends no later than a later field starts. */
  lemma {:induction false} TilesOrdered(c: seq<FieldDef>, lo: nat, hi: nat, i: nat, j: nat)
    requires Tiles(c, lo, hi) && i < j < |c|
    ensures End(c[i]) <= c[j].pos
    decreases j - i
  {
    if i + 1 < j {
      TilesOrdered(c, lo, hi, i, j - 1);
    }
  }

  /** Every field of a tiling lies within [lo, hi) and is not empty. */
  lemma TilesWithin(c: seq<FieldDef>, lo: nat, hi: nat, i: nat)
    requires Tiles(c, lo, hi) && i < |c|
    ensures lo <= c[i].pos < End(c[i]) <= hi
  {
    if 0 < i {
      TilesOrdered(c, lo, hi, 0, i);
    }
    if i < |c| - 1 {
      TilesOrdered(c, lo, hi, i, |c| - 1);
    }
  }

  /** Every byte of [lo, hi) belongs to some field of a tiling. */
  lemma {:induction false} TilesCover(c: seq<FieldDef>, lo: nat, hi: nat, b: nat)
    requires Tiles(c, lo, hi) && lo <= b < hi
    ensures exists i :: 0 <= i < |c| && Covers(c[i], b)
  {
    if b >= End(c[0]) {
      var rest := c[1..];
      assert Tiles(rest, End(c[0]), hi);
      TilesCover(rest, End(c[0]), hi, b);
      var k :| 0 <= k < |rest| && Covers(rest[k], b);
      assert Covers(c[k + 1], b);
    } else {
      assert Covers(c[0], b);
    }
  }

  /** A tiling partitions [lo, hi): every byte belongs to exactly one field. */
  lemma TilesPartition(c: seq<FieldDef>, lo: nat, hi: nat, b: nat)
    requires Tiles(c, lo, hi) && lo <= b < hi
    ensures exists i :: 0 <= i < |c| && Covers(c[i], b) && (forall j :: 0 <= j < |c| && Covers(c[j], b) ==> j == i)
  {
    TilesCover(c, lo, hi, b);
    var i :| 0 <= i < |c| && Covers(c[i], b);
    forall j | 0 <= j < |c| && Covers(c[j], b)
      ensures j == i
    {
      if j < i {
        TilesOrdered(c, lo, hi, j, i);
      } else if i < j {
        TilesOrdered(c, lo, hi, i, j);
      }
    }
  }

  /** Each section of the catalogs, checked entry by entry, is a tiling of its
      byte range (GainAndSweepFields from its second entry on, PositionFields up
      to its fourth). */
  lemma ShDefIdentificationRun()
    ensures Tiles(ShDefIdentification(), 3200, 3232)
    ensures IntegerTyped(ShDefIdentification())
  {
    var c := ShDefIdentification();
    assert |c| == 13 && c[0].pos == 3200 && End(c[12]) == 3232;
    assert Chained(ShDefIdentification(), 8, 13);
    assert Chained(ShDefIdentification(), 3, 13);
    assert Chained(ShDefIdentification(), 0, 13);
    ChainedRun(c, 0, 13);
  }

  lemma ShDefSweepAndGainRun()
    ensures Tiles(ShDefSweepAndGain(), 3232, 3260)
    ensures IntegerTyped(ShDefSweepAndGain())
  {
    var c := ShDefSweepAndGain();
    assert |c| == 14 && c[0].pos == 3232 && End(c[13]) == 3260;
    assert Chained(ShDefSweepAndGain(), 9, 14);
    assert Chained(ShDefSweepAndGain(), 4, 14);
    assert Chained(ShDefSweepAndGain(), 0, 14);
    ChainedRun(c, 0, 14);
  }

  lemma ShDefReservedRun()
    ensures Tiles(ShDefReserved(), 3260, 3600)
    ensures IntegerTyped(ShDefReserved())
  {
    var c := ShDefReserved();
    assert |c| == 5 && c[0].pos == 3260 && End(c[4]) == 3600;
    assert Chained(ShDefReserved(), 0, 5);
    ChainedRun(c, 0, 5);
  }

  lemma TraceIdentificationFieldsRun()
    ensures Tiles(TraceIdentificationFields(), 0, 36)
    ensures IntegerTyped(TraceIdentificationFields())
  {
    var c := TraceIdentificationFields();
    assert |c| == 11 && c[0].pos == 0 && End(c[10]) == 36;
    assert Chained(TraceIdentificationFields(), 6, 11);
    assert Chained(TraceIdentificationFields(), 1, 11);
    assert Chained(TraceIdentificationFields(), 0, 11);
    ChainedRun(c, 0, 11);
  }

  lemma ElevationAndCoordinateFieldsRun()
    ensures Tiles(ElevationAndCoordinateFields(), 36, 90)
    ensures IntegerTyped(ElevationAndCoordinateFields())
  {
    var c := ElevationAndCoordinateFields();
    assert |c| == 15 && c[0].pos == 36 && End(c[14]) == 90;
    assert Chained(ElevationAndCoordinateFields(), 10, 15);
    assert Chained(ElevationAndCoordinateFields(), 5, 15);
    assert Chained(ElevationAndCoordinateFields(), 0, 15);
    ChainedRun(c, 0, 15);
  }

  lemma VelocityStaticAndTimingFieldsRun()
    ensures Tiles(VelocityStaticAndTimingFields(), 90, 118)
    ensures IntegerTyped(VelocityStaticAndTimingFields())
  {
    var c := VelocityStaticAndTimingFields();
    assert |c| == 14 && c[0].pos == 90 && End(c[13]) == 118;
    assert Chained(VelocityStaticAndTimingFields(), 9, 14);
    assert Chained(VelocityStaticAndTimingFields(), 4, 14);
    assert Chained(VelocityStaticAndTimingFields(), 0, 14);
    ChainedRun(c, 0, 14);
  }

  lemma FilterFieldsRun()
    ensures Tiles(FilterFields(), 138, 156)
    ensures IntegerTyped(FilterFields())
  {
    var c := FilterFields();
    assert |c| == 9 && c[0].pos == 138 && End(c[8]) == 156;
    assert Chained(FilterFields(), 4, 9);
    assert Chained(FilterFields(), 0, 9);
    ChainedRun(c, 0, 9);
  }

  lemma RecordingTimeAndGeophoneFieldsRun()
    ensures Tiles(RecordingTimeAndGeophoneFields(), 156, 180)
    ensures IntegerTyped(RecordingTimeAndGeophoneFields())
  {
    var c := RecordingTimeAndGeophoneFields();
    assert |c| == 12 && c[0].pos == 156 && End(c[11]) == 180;
    assert Chained(RecordingTimeAndGeophoneFields(), 7, 12);
    assert Chained(RecordingTimeAndGeophoneFields(), 2, 12);
    assert Chained(RecordingTimeAndGeophoneFields(), 0, 12);
    ChainedRun(c, 0, 12);
  }

  lemma SourceFieldsRun()
    ensures Tiles(SourceFields(), 200, 240)
    ensures IntegerTyped(SourceFields())
  {
    var c := SourceFields();
    assert |c| == 15 && c[0].pos == 200 && End(c[14]) == 240;
    assert Chained(SourceFields(), 10, 15);
    assert Chained(SourceFields(), 5, 15);
    assert Chained(SourceFields(), 0, 15);
    ChainedRun(c, 0, 15);
  }

  lemma GainAndSweepFieldsRun()
    ensures |GainAndSweepFields()| == 10 && GainAndSweepFields()[0].name == "GainType"
    ensures GainAndSweepFields()[0].pos == 119
    ensures IntegerTyped(GainAndSweepFields())
    ensures Tiles(GainAndSweepFields()[1..], 120, 138)
  {
    var c := GainAndSweepFields();
    assert |c| == 10 && c[1].pos == 120 && End(c[9]) == 138;
    assert Chained(GainAndSweepFields(), 5, 10);
    assert Chained(GainAndSweepFields(), 1, 10) && IsInteger(c[0].prim);
    ChainedRun(c, 1, 10);
    TilesOfRun(c, 1, 10, 120, 138);
    assert Adjacent(c, 1, 10) && Nonempty(c, 1, 10);
    assert c[1..10] == c[1..];
  }

  lemma PositionFieldsRun()
    ensures |PositionFields()| == 5 && PositionFields()[4].name == "ShotPoint"
    ensures PositionFields()[3].pos == PositionFields()[4].pos == 192
    ensures Tiles(PositionFields()[..4], 180, 196)
    ensures IntegerTyped(PositionFields())
  {
    var c := PositionFields();
    assert |c| == 5 && c[0].pos == 180 && End(c[3]) == 196;
    assert Chained(PositionFields(), 0, 4) && IsInteger(c[4].prim);
    ChainedRun(c, 0, 4);
    TilesOfRun(c, 0, 4, 180, 196);
    assert c[0..4] == c[..4];
  }

  /** SH_def covers the 400-byte binary file header, bytes 3200 to 3599, field
      by field without gap or overlap. */
  lemma ShDefTiles()
    ensures Tiles(ShDef(), 3200, 3600)
  {
    var a, b, c := ShDefIdentification(), ShDefSweepAndGain(), ShDefReserved();
    ShDefIdentificationRun();
    ShDefSweepAndGainRun();
    ShDefReservedRun();
    TilesAppend(a, b, 3200, 3232, 3260);
    TilesAppend(a + b, c, 3200, 3260, 3600);
  }

  /** The 120 reserved int16 words of Unassigned1 end exactly where the format
      revision number starts, and the 47 words of Unassigned2 end exactly at the
      end of the binary header. */
  lemma ShDefReservedRanges()
    ensures ShDef()[27].name == "Unassigned1" && ShDef()[27].pos == 3260 && End(ShDef()[27]) == 3500
    ensures ShDef()[28].name == "SegyFormatRevisionNumber" && ShDef()[28].pos == 3500
    ensures ShDef()[31].name == "Unassigned2" && ShDef()[31].pos == 3506 && End(ShDef()[31]) == 3600
  {
  }

  /** STH_def up to GainAndSweepFields, bytes 0 to 137, with GainType moved. */
  lemma StHDefFrontTiles()
    ensures Tiles(TraceIdentificationFields() + ElevationAndCoordinateFields() + VelocityStaticAndTimingFields()
                  + GainAndSweepFields()[0 := GainTypeAt118], 0, 138)
  {
    var s1, s2, s3, g := TraceIdentificationFields(), ElevationAndCoordinateFields(), VelocityStaticAndTimingFields(), GainAndSweepFields();
    TraceIdentificationFieldsRun();
    ElevationAndCoordinateFieldsRun();
    VelocityStaticAndTimingFieldsRun();
    GainAndSweepFieldsRun();
    assert g[0 := GainTypeAt118] == [GainTypeAt118] + g[1..];
    TilesAppend([GainTypeAt118], g[1..], 118, 120, 138);
    TilesAppend(s1, s2, 0, 36, 90);
    TilesAppend(s1 + s2, s3, 0, 90, 118);
    TilesAppend(s1 + s2 + s3, g[0 := GainTypeAt118], 0, 118, 138);
  }

  /** With the two fields moved, STH_def covers the 240-byte trace header field
      by field without gap or overlap. */
  lemma StHDefTiles()
    ensures Tiles(StHDef(), 0, 240)
  {
    var front := TraceIdentificationFields() + ElevationAndCoordinateFields() + VelocityStaticAndTimingFields()
                 + GainAndSweepFields()[0 := GainTypeAt118];
    var s5, s6, p, s8 := FilterFields(), RecordingTimeAndGeophoneFields(), PositionFields(), SourceFields();
    StHDefFrontTiles();
    FilterFieldsRun();
    RecordingTimeAndGeophoneFieldsRun();
    PositionFieldsRun();
    SourceFieldsRun();
    assert p[4 := ShotPointAt196] == p[..4] + [ShotPointAt196];
    TilesAppend(p[..4], [ShotPointAt196], 180, 196, 200);
    TilesAppend(front, s5, 0, 138, 156);
    TilesAppend(front + s5, s6, 0, 156, 180);
    TilesAppend(front + s5 + s6, p[4 := ShotPointAt196], 0, 180, 200);
    TilesAppend(front + s5 + s6 + p[4 := ShotPointAt196], s8, 0, 200, 240);
  }

  /** Every STH_def entry, as written, fits inside the 240-byte trace header. */
  lemma StHDefAsWrittenWithin()
    ensures forall i :: 0 <= i < |StHDefAsWritten()| ==> End(StHDefAsWritten()[i]) <= 240
  {
    var c := StHDefAsWritten();
    StHDefTiles();
    StHDefMovesTwoFields();
    forall i | 0 <= i < |c|
      ensures End(c[i]) <= 240
    {
      if i == GainTypeIndex || i == ShotPointIndex {
      } else {
        TilesWithin(StHDef(), 0, 240, i);
      }
    }
  }

  /** As written, GainType (byte 119) shares byte 120 with InstrumentGainConstant,
      Crossline3D and ShotPoint are the same four bytes 192-195, and so STH_def
      does not tile the trace header. */
  lemma StHDefAsWrittenOverlaps()
    ensures StHDefAsWritten()[GainTypeIndex].name == "GainType"
    ensures StHDefAsWritten()[GainTypeIndex + 1].name == "InstrumentGainConstant"
    ensures Covers(StHDefAsWritten()[GainTypeIndex], 120) && Covers(StHDefAsWritten()[GainTypeIndex + 1], 120)
    ensures StHDefAsWritten()[ShotPointIndex - 1].name == "Crossline3D"
    ensures StHDefAsWritten()[ShotPointIndex].name == "ShotPoint"
    ensures StHDefAsWritten()[ShotPointIndex - 1].pos == StHDefAsWritten()[ShotPointIndex].pos == 192
    ensures !Tiles(StHDefAsWritten(), 0, 240)
  {
    var c := StHDefAsWritten();
    assert End(c[GainTypeIndex]) != c[GainTypeIndex + 1].pos;
  }

  /** As written, byte 118 and bytes 196-199 of the trace header belong to no
      field: the first byte of the gain type and the whole shot point go unread. */
  lemma StHDefAsWrittenGaps(b: int)
    requires b == 118 || 196 <= b < 200
    ensures forall i :: 0 <= i < |StHDefAsWritten()| ==> !Covers(StHDefAsWritten()[i], b)
  {
    var c, d := StHDefAsWritten(), StHDef();
    StHDefTiles();
    StHDefMovesTwoFields();
    forall i | 0 <= i < |c|
      ensures !Covers(c[i], b)
    {
      if i != GainTypeIndex && i != ShotPointIndex {
        var k := if b == 118 then GainTypeIndex else ShotPointIndex;
        if i < k {
          TilesOrdered(d, 0, 240, i, k);
        } else {
          TilesOrdered(d, 0, 240, k, i);
        }
      }
    }
  }

  /** In a tiling every field lies within [lo, hi), and so does its first element. */
  lemma TilesFieldsWithin(c: seq<FieldDef>, lo: nat, hi: nat)
    requires Tiles(c, lo, hi)
    ensures forall i :: 0 <= i < |c| ==> lo <= c[i].pos && c[i].pos + Size(c[i].prim) <= End(c[i]) <= hi
  {
    forall i | 0 <= i < |c|
      ensures lo <= c[i].pos && c[i].pos + Size(c[i].prim) <= End(c[i]) <= hi
    {
      TilesWithin(c, lo, hi, i);
      MulMonotone(1, c[i].count, Size(c[i].prim));
    }
  }

  /** Every SH_def entry lies within the binary header, bytes 3200 to 3599, and
      holds integers. */
  lemma ShDefWithin()
    ensures |ShDef()| == 32 && IntegerTyped(ShDef())
    ensures forall i :: 0 <= i < |ShDef()| ==> 3200 <= ShDef()[i].pos && End(ShDef()[i]) <= 3600
  {
    ShDefIdentificationRun();
    ShDefSweepAndGainRun();
    ShDefReservedRun();
    ShDefTiles();
    TilesFieldsWithin(ShDef(), 3200, 3600);
  }

  /** getSegyHeader reads one element of every SH_def entry, "n" or not: those
      single elements all end by byte 3508, and the last, of Unassigned2, ends there. */
  lemma ShDefFirstElementsEnd()
    ensures forall i :: 0 <= i < |ShDef()| ==> ShDef()[i].pos + Size(ShDef()[i].prim) <= 3508
    ensures ShDef()[|ShDef()| - 1].pos + Size(ShDef()[|ShDef()| - 1].prim) == 3508
  {
    var c := ShDef();
    ShDefWithin();
    ShDefTiles();
    TilesFieldsWithin(c, 3200, 3600);
    forall i | 0 <= i < |c| - 1
      ensures c[i].pos + Size(c[i].prim) <= 3508
    {
      TilesOrdered(c, 3200, 3600, i, |c| - 1);
    }
  }

  /** SH_def["ns"], the sample count getSegyHeader feeds to the trace count, is
      the uint16 at bytes 3220-3221. */
  lemma ShDefNs()
    ensures Lookup(ShDef(), "ns") == Some(FieldDef("ns", 3220, UInt16, 1))
  {
    var c := ShDef();
    assert c[7] == FieldDef("ns", 3220, UInt16, 1);
    LookupAt(c, 7);
  }

  /** Joining two integer-typed catalogs gives an integer-typed catalog. */
  lemma IntegerTypedAppend(a: seq<FieldDef>, b: seq<FieldDef>)
    requires IntegerTyped(a) && IntegerTyped(b)
    ensures IntegerTyped(a + b)
  {
    assert forall i :: 0 <= i < |b| ==> (a + b)[|a| + i] == b[i];
  }

  /** Every STH_def entry, with the two fields moved, holds integers. */
  lemma StHDefIntegerTyped()
    ensures IntegerTyped(StHDef())
  {
    var s1, s2, s3 := TraceIdentificationFields(), ElevationAndCoordinateFields(), VelocityStaticAndTimingFields();
    var g, s5, s6, p, s8 := GainAndSweepFields(), FilterFields(), RecordingTimeAndGeophoneFields(), PositionFields(), SourceFields();
    var s4, s7 := g[0 := GainTypeAt118], p[4 := ShotPointAt196];
    TraceIdentificationFieldsRun();
    ElevationAndCoordinateFieldsRun();
    VelocityStaticAndTimingFieldsRun();
    GainAndSweepFieldsRun();
    FilterFieldsRun();
    RecordingTimeAndGeophoneFieldsRun();
    PositionFieldsRun();
    SourceFieldsRun();
    IntegerTypedAppend(s1, s2);
    IntegerTypedAppend(s1 + s2, s3);
    IntegerTypedAppend(s1 + s2 + s3, s4);
    IntegerTypedAppend(s1 + s2 + s3 + s4, s5);
    IntegerTypedAppend(s1 + s2 + s3 + s4 + s5, s6);
    IntegerTypedAppend(s1 + s2 + s3 + s4 + s5 + s6, s7);
    IntegerTypedAppend(s1 + s2 + s3 + s4 + s5 + s6 + s7, s8);
  }

  /** Every STH_def entry, with the two fields moved, holds integers and lies
      within the 240-byte trace header; the last is UnassignedInt2, which ends at
      byte 240. */
  lemma StHDefWithin()
    ensures |StHDef()| == 91 && IntegerTyped(StHDef())
    ensures forall i :: 0 <= i < |StHDef()| ==> StHDef()[i].pos + Size(StHDef()[i].prim) <= End(StHDef()[i]) <= 240
    ensures StHDef()[90] == FieldDef("UnassignedInt2", 236, Int32, 1)
  {
    StHDefIntegerTyped();
    StHDefTiles();
    TilesFieldsWithin(StHDef(), 0, 240);
  }
}
