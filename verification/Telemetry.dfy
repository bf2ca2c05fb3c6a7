/** The figures of a heartbeat: memory from /proc/meminfo, disk from statvfs, CPU from two samples of /proc/stat, and
    the bounds the panel puts on them. Unsigned arithmetic is that of a release build; the CPU figure is an exact
    fraction. */
module Telemetry {
  import opened Common
  import opened Text

  // ------------------------------------------------------------------------------------------------
  // Decimal numbers.

  predicate IsDigit(c: char) { '0' <= c <= '9' }

  predicate AllDigits(s: string) {
    forall i :: 0 <= i < |s| ==> IsDigit(s[i])
  }

  function DigitValue(c: char): nat
    requires IsDigit(c)
  {
    c as int - '0' as int
  }

  function Value(digits: string): nat
    requires AllDigits(digits)
  {
    if digits == "" then 0
    else Value(digits[..|digits| - 1]) * 10 + DigitValue(digits[|digits| - 1])
  }

  /** str::parse::<u64>: an optional plus sign and digits, refused when the value does not fit. */
  function ParseU64(s: string): Option<U64> {
    var digits := if |s| > 1 && s[0] == '+' then s[1..] else s;
    if digits == "" || !AllDigits(digits) then None
    else if Value(digits) >= TWO_64 then None
    else Some(Value(digits))
  }

  /** How the kernel prints a number. */
  function Print(n: nat): (s: string)
    ensures s != "" && AllDigits(s)
  {
    (if n < 10 then "" else Print(n / 10)) + [('0' as int + n % 10) as char]
  }

  lemma {:induction false} PrintValue(n: nat)
    ensures Value(Print(n)) == n
  {
    var s := Print(n);
    if n < 10 {
      assert s[..|s| - 1] == "";
    } else {
      PrintValue(n / 10);
      assert s[..|s| - 1] == Print(n / 10);
    }
  }

  lemma DigitsAreNoSpace(s: string)
    requires AllDigits(s)
    ensures NoSpace(s)
  {
    forall i | 0 <= i < |s|
      ensures !IsSpace(s[i])
    {
      assert IsDigit(s[i]);
    }
  }

  lemma PrintParses(n: U64)
    ensures ParseU64(Print(n)) == Some(n) && NoSpace(Print(n))
  {
    PrintValue(n);
    assert IsDigit(Print(n)[0]);
    DigitsAreNoSpace(Print(n));
  }

  /** Digits may follow a plus sign; anything else, no digits at all and numbers of 2^64 or more are refused. */
  lemma ParseIs(digits: string)
    ensures digits == "" || !AllDigits(digits) ==> ParseU64("+" + digits) == None
    ensures digits == "" || (!AllDigits(digits) && digits[0] != '+') ==> ParseU64(digits) == None
    ensures digits != "" && AllDigits(digits) ==>
      ParseU64("+" + digits) == ParseU64(digits) == if Value(digits) < TWO_64 then Some(Value(digits)) else None
  {
    var signed := "+" + digits;
    assert signed[0] == '+' && signed[1..] == digits;
    assert !IsDigit(signed[0]);
    if digits != "" && AllDigits(digits) {
      assert IsDigit(digits[0]);
    }
  }

  // ------------------------------------------------------------------------------------------------
  // Memory and disk.

  function SaturatingSub(x: U64, y: U64): U64 {
    if x < y then 0 else x - y
  }

  function FirstNumber(words: seq<string>): U64 {
    if words == [] then 0
    else
      match ParseU64(words[0])
      case None => 0
      case Some(n) => n
  }

  function MeminfoValue(s: string): U64 {
    FirstNumber(Words(s))
  }

  const TOTAL := "MemTotal:"
  const AVAILABLE := "MemAvailable:"

  /** The value of the last line with this key, or 0. */
  function Reading(lines: seq<string>, key: string): U64 {
    if lines == [] then 0
    else
      var line := lines[|lines| - 1];
      if key <= line then MeminfoValue(line[|key|..]) else Reading(lines[..|lines| - 1], key)
  }

  function Used(totalKb: U64, availableKb: U64): U64 {
    SaturatingSub(Wrap(totalKb * 1024), Wrap(availableKb * 1024))
  }

  method ReadMemoryInfo(file: Option<seq<string>>) returns (total: U64, used: U64)
    ensures file.None? ==> total == used == 0
    ensures file.Some? ==>
      && total == Wrap(Reading(file.value, "MemTotal:") * 1024)
      && used == Used(Reading(file.value, "MemTotal:"), Reading(file.value, "MemAvailable:"))
    ensures used <= total
  {
    if file.None? {
      return 0, 0;
    }
    var lines := file.value;
    var totalKb: U64, availableKb: U64 := 0, 0;
    var i := 0;
    while i < |lines|
      invariant 0 <= i <= |lines|
      invariant totalKb == Reading(lines[..i], TOTAL) && availableKb == Reading(lines[..i], AVAILABLE)
    {
      assert lines[..i + 1][..i] == lines[..i];
      var line := lines[i];
      if TOTAL <= line {
        NotPrefixAt(AVAILABLE, line, 3);
        totalKb := MeminfoValue(line[|TOTAL|..]);
      } else if AVAILABLE <= line {
        availableKb := MeminfoValue(line[|AVAILABLE|..]);
      }
      i := i + 1;
    }
    assert lines[..i] == lines;
    total := Wrap(totalKb * 1024);
    used := SaturatingSub(total, Wrap(availableKb * 1024));
  }

  lemma {:induction false} WordAfterPad(pad: string, word: string, rest: string)
    requires (forall i :: 0 <= i < |pad| ==> IsSpace(pad[i])) && word != "" && NoSpace(word) && Breaks(rest)
    ensures Words(pad + word + rest) == [word] + Words(rest)
  {
    if pad == "" {
      assert pad + word + rest == word + rest;
      WordsOf(word, rest);
    } else {
      assert (pad + word + rest)[1..] == pad[1..] + word + rest;
      WordAfterPad(pad[1..], word, rest);
    }
  }

  /** A line as the kernel prints it: the key, padding, the number and a unit. */
  lemma PrintedValueIsRead(pad: string, n: U64, unit: string)
    requires (forall i :: 0 <= i < |pad| ==> IsSpace(pad[i])) && Breaks(unit)
    ensures MeminfoValue(pad + Print(n) + unit) == n
  {
    PrintParses(n);
    WordAfterPad(pad, Print(n), unit);
  }

  ghost predicate Prints(line: string, key: string, n: U64) {
    exists pad, unit ::
      (forall i :: 0 <= i < |pad| ==> IsSpace(pad[i])) && Breaks(unit) && line == key + (pad + Print(n) + unit)
  }

  /** The file reports `n` under `key`, and not again later. */
  ghost predicate Reports(lines: seq<string>, at: nat, key: string, n: U64) {
    && at < |lines| && Prints(lines[at], key, n)
    && forall j :: at < j < |lines| ==> !(key <= lines[j])
  }

  lemma {:induction false} ReportIsRead(lines: seq<string>, at: nat, key: string, n: U64)
    requires Reports(lines, at, key, n)
    ensures Reading(lines, key) == n
    decreases |lines|
  {
    var last := |lines| - 1;
    if at == last {
      var pad, unit :|
        (forall i :: 0 <= i < |pad| ==> IsSpace(pad[i])) && Breaks(unit)
        && lines[at] == key + (pad + Print(n) + unit);
      assert lines[at][|key|..] == pad + Print(n) + unit;
      PrintedValueIsRead(pad, n, unit);
    } else {
      ReportIsRead(lines[..last], at, key, n);
    }
  }

  lemma UsedIsExactIff(t: nat, a: nat)
    ensures
      (Wrap(t) == t && SaturatingSub(Wrap(t), Wrap(a)) == if t < a then 0 else t - a)
      <==> t < TWO_64 && (a < TWO_64 || Wrap(a) >= t)
  {
  }

  /** MAIN RESULT. From a file that reports T and A kB, wherever in the file, the heartbeat takes T kB as total and
      T - A kB (at least 0) as used, in bytes, exactly when T is below 2^54 and A is as well or wraps to at least T. */
  lemma MemoryIsExactIff(lines: seq<string>, i: nat, j: nat, t: U64, a: U64)
    requires Reports(lines, i, "MemTotal:", t) && Reports(lines, j, "MemAvailable:", a)
    ensures var total, available := Reading(lines, "MemTotal:"), Reading(lines, "MemAvailable:");
      (Wrap(total * 1024) == t * 1024 && Used(total, available) == if t < a then 0 else (t - a) * 1024)
      <==> t * 1024 < TWO_64 && (a * 1024 < TWO_64 || Wrap(a * 1024) >= t * 1024)
  {
    ReportIsRead(lines, i, "MemTotal:", t);
    ReportIsRead(lines, j, "MemAvailable:", a);
    UsedIsExactIff(t * 1024, a * 1024);
  }

  datatype Statvfs = Statvfs(blocks: U64, blocksAvailable: U64, fragmentSize: U64)

  function DiskUsage(stat: Option<Statvfs>): (r: (U64, U64))
    ensures r.1 <= r.0
  {
    match stat
    case None => (0, 0)
    case Some(s) =>
      var total := Wrap(s.blocks * s.fragmentSize);
      (total, SaturatingSub(total, Wrap(s.blocksAvailable * s.fragmentSize)))
  }

  lemma DifferenceTimes(x: nat, y: nat, f: nat)
    requires y <= x
    ensures (x - y) * f == x * f - y * f && y * f <= x * f
  {
  }

  /** Of a file system with no more blocks available than it has, the figures are its size and what is not available,
      exactly when the size in bytes fits. */
  lemma DiskIsExactIff(s: Statvfs)
    requires s.blocksAvailable <= s.blocks
    ensures DiskUsage(Some(s)) == (s.blocks * s.fragmentSize, (s.blocks - s.blocksAvailable) * s.fragmentSize)
      <==> s.blocks * s.fragmentSize < TWO_64
  {
    DifferenceTimes(s.blocks, s.blocksAvailable, s.fragmentSize);
    UsedIsExactIff(s.blocks * s.fragmentSize, s.blocksAvailable * s.fragmentSize);
  }

  // ------------------------------------------------------------------------------------------------
  // CPU.

  /** filter_map(parse): what does not parse is dropped. */
  function Numbers(words: seq<string>): seq<U64> {
    if words == [] then []
    else
      var n := ParseU64(words[0]);
      (if n.Some? then [n.value] else []) + Numbers(words[1..])
  }

  function Total(counters: seq<U64>): nat {
    if counters == [] then 0 else counters[0] + Total(counters[1..])
  }

  datatype Sample = Sample(idle: U64, total: U64)

  /** The parsed fields of the first line of /proc/stat after its name. */
  function Fields(line: string): seq<U64> {
    var words := Words(line);
    Numbers(if words == [] then [] else words[1..])
  }

  function SampleFrom(vals: seq<U64>): Option<Sample> {
    if |vals| < 4 then None else Some(Sample(vals[3], Wrap(Total(vals))))
  }

  function SampleOf(line: Option<string>): Option<Sample> {
    if line.None? then None else SampleFrom(Fields(line.value))
  }

  /** part / whole * 100, kept as a fraction. */
  datatype Percentage = Percentage(part: int, whole: int)

  function AsReal(p: Percentage): real
    requires p.whole > 0
  {
    p.part as real / p.whole as real * 100.0
  }

  function Figure(idleDelta: nat, totalDelta: nat): (p: Percentage)
    ensures p.whole > 0
  {
    if totalDelta == 0 then Percentage(0, 1) else Percentage(totalDelta - idleDelta, totalDelta)
  }

  function CpuUsage(first: Option<Sample>, second: Option<Sample>): (p: Percentage)
    ensures p.whole > 0
  {
    if first.None? || second.None? then Percentage(0, 1)
    else
      Figure(SaturatingSub(second.value.idle, first.value.idle), SaturatingSub(second.value.total, first.value.total))
  }

  lemma ShareSign(part: real, whole: real)
    requires whole > 0.0
    ensures (part / whole >= 0.0 <==> part >= 0.0) && (part / whole <= 1.0 <==> part <= whole)
  {
    var q := part / whole;
    assert q * whole == part;
    if q < 0.0 {
      assert q * whole < 0.0;
    } else {
      assert q * whole >= 0.0;
    }
    if q > 1.0 {
      assert q * whole > 1.0 * whole;
    } else {
      assert q * whole <= 1.0 * whole;
    }
  }

  predicate InPercentRange(p: Percentage) {
    0 <= p.part <= p.whole
  }

  lemma RangeIff(p: Percentage)
    requires p.whole > 0
    ensures InPercentRange(p) <==> 0.0 <= AsReal(p) <= 100.0
  {
    ShareSign(p.part as real, p.whole as real);
  }

  /** Whatever the two samples hold, the figure is at most 100, and it lies in [0, 100] exactly when the total did not
      advance or advanced at least as much as the idle counter. */
  lemma CpuInRangeIff(idleDelta: nat, totalDelta: nat)
    ensures AsReal(Figure(idleDelta, totalDelta)) <= 100.0
    ensures 0.0 <= AsReal(Figure(idleDelta, totalDelta)) <==> totalDelta == 0 || idleDelta <= totalDelta
  {
    var p := Figure(idleDelta, totalDelta);
    ShareSign(p.part as real, p.whole as real);
  }

  predicate IsPadding(pad: string) {
    pad != "" && forall i :: 0 <= i < |pad| ==> IsSpace(pad[i])
  }

  predicate ArePaddings(pads: seq<string>) {
    forall k :: 0 <= k < |pads| ==> IsPadding(pads[k])
  }

  /** The counters of a line, each after its padding. */
  function PrintAll(pads: seq<string>, counters: seq<U64>): string
    requires |pads| == |counters|
  {
    if counters == [] then "" else pads[0] + Print(counters[0]) + PrintAll(pads[1..], counters[1..])
  }

  lemma NumberIsRead(pad: string, word: string, n: U64, rest: string)
    requires IsPadding(pad) && word != "" && NoSpace(word) && ParseU64(word) == Some(n) && Breaks(rest)
    ensures Numbers(Words(pad + word + rest)) == [n] + Numbers(Words(rest)) && Breaks(pad + word + rest)
  {
    WordAfterPad(pad, word, rest);
    assert ([word] + Words(rest))[1..] == Words(rest);
    assert (pad + word + rest)[0] == pad[0];
  }

  lemma FirstCounterIsRead(pad: string, n: U64, rest: string)
    requires IsPadding(pad) && Breaks(rest)
    ensures Numbers(Words(pad + Print(n) + rest)) == [n] + Numbers(Words(rest)) && Breaks(pad + Print(n) + rest)
  {
    PrintParses(n);
    NumberIsRead(pad, Print(n), n, rest);
  }

  lemma {:induction false} CountersAreRead(pads: seq<string>, counters: seq<U64>)
    requires |pads| == |counters| && ArePaddings(pads)
    ensures Numbers(Words(PrintAll(pads, counters))) == counters && Breaks(PrintAll(pads, counters))
    decreases |counters|
  {
    if counters != [] {
      CountersAreRead(pads[1..], counters[1..]);
      FirstCounterIsRead(pads[0], counters[0], PrintAll(pads[1..], counters[1..]));
      assert counters == [counters[0]] + counters[1..];
    }
  }

  lemma FieldsAfter(name: string, rest: string)
    requires name != "" && NoSpace(name) && Breaks(rest)
    ensures Fields(name + rest) == Numbers(Words(rest))
  {
    WordsOf(name, rest);
    assert ([name] + Words(rest))[1..] == Words(rest);
  }

  /** A line as the kernel prints it: a name, then every counter after some white space. The first line of /proc/stat
      has two spaces after "cpu" and one before each further counter. */
  ghost predicate PrintsCounters(line: string, counters: seq<U64>) {
    exists name, pads :: IsLine(line, name, pads, counters)
  }

  predicate IsLine(line: string, name: string, pads: seq<string>, counters: seq<U64>) {
    && name != "" && NoSpace(name) && |pads| == |counters| && ArePaddings(pads)
    && line == name + PrintAll(pads, counters)
  }

  lemma LineIsRead(line: string, counters: seq<U64>)
    requires PrintsCounters(line, counters)
    ensures Fields(line) == counters
  {
    var name, pads :| IsLine(line, name, pads, counters);
    CountersAreRead(pads, counters);
    FieldsAfter(name, PrintAll(pads, counters));
  }

  /** The spacing of the first line of /proc/stat. */
  function StatPads(n: nat): (pads: seq<string>)
    ensures |pads| == n && ArePaddings(pads)
  {
    seq(n, k => if k == 0 then "  " else " ")
  }

  lemma CpuIsAWord()
    ensures NoSpace("cpu")
  {
  }

  lemma AggregateLineIsPrinted(line: string, counters: seq<U64>)
    requires line == "cpu" + PrintAll(StatPads(|counters|), counters)
    ensures PrintsCounters(line, counters)
  {
    CpuIsAWord();
    assert IsLine(line, "cpu", StatPads(|counters|), counters);
  }

  ghost predicate NonDecreasing(xs: seq<U64>, ys: seq<U64>) {
    |xs| == |ys| && forall k :: 0 <= k < |xs| ==> xs[k] <= ys[k]
  }

  function Without(s: seq<U64>, k: nat): seq<U64>
    requires k < |s|
  {
    s[..k] + s[k + 1..]
  }

  lemma {:induction false} TotalWithout(s: seq<U64>, k: nat)
    requires k < |s|
    ensures Total(s) == s[k] + Total(Without(s, k))
  {
    if k == 0 {
      assert Without(s, 0) == s[1..];
    } else {
      TotalWithout(s[1..], k - 1);
      assert Without(s, k)[0] == s[0] && Without(s, k)[1..] == Without(s[1..], k - 1);
    }
  }

  lemma {:induction false} TotalGrows(xs: seq<U64>, ys: seq<U64>)
    requires NonDecreasing(xs, ys)
    ensures Total(xs) <= Total(ys)
  {
    if xs != [] {
      TotalGrows(xs[1..], ys[1..]);
    }
  }

  /** The advance of a wrapped counter, as the subtraction sees it: 0 when the counter wrapped between the samples. */
  lemma WrappedAdvance(x: nat, y: nat)
    requires x <= y
    ensures SaturatingSub(Wrap(y), Wrap(x)) == if Wrap(x) + Wrap(y - x) < TWO_64 then Wrap(y - x) else 0
  {
    var q, d := x / TWO_64, (y - x) / TWO_64;
    assert y == (q + d) * TWO_64 + (Wrap(x) + Wrap(y - x));
    if Wrap(x) + Wrap(y - x) < TWO_64 {
      WrapIs(y, q + d, Wrap(x) + Wrap(y - x));
    } else {
      WrapIs(y, q + d + 1, Wrap(x) + Wrap(y - x) - TWO_64);
    }
  }

  /** For counters that do not decrease the figure is in range exactly when the wrapped sum overflows between the
      samples, or does not advance, or advances by at least the advance of the idle counter. */
  lemma InRangeIff(xs: seq<U64>, ys: seq<U64>)
    requires NonDecreasing(xs, ys)
    ensures var advance := Wrap(Total(ys) - Total(xs));
      InPercentRange(CpuUsage(SampleFrom(xs), SampleFrom(ys))) <==>
        |xs| < 4 || Wrap(Total(xs)) + advance >= TWO_64 || advance == 0 || ys[3] - xs[3] <= advance
  {
    TotalGrows(xs, ys);
    WrappedAdvance(Total(xs), Total(ys));
  }

  lemma IdleAdvanceIsPart(xs: seq<U64>, ys: seq<U64>)
    requires |xs| >= 4 && NonDecreasing(xs, ys)
    ensures Total(ys) - Total(xs) == (ys[3] - xs[3]) + (Total(Without(ys, 3)) - Total(Without(xs, 3)))
    ensures Total(Without(xs, 3)) <= Total(Without(ys, 3))
  {
    TotalWithout(xs, 3);
    TotalWithout(ys, 3);
    TotalGrows(Without(xs, 3), Without(ys, 3));
  }

  lemma SmallAdvance(x: nat, y: nat)
    requires x <= y && y - x < TWO_64
    ensures var seen := SaturatingSub(Wrap(y), Wrap(x)); seen == 0 || seen == y - x
  {
    WrapIs(y - x, 0, y - x);
    WrappedAdvance(x, y);
  }

  lemma NonDecreasingIsInRange(xs: seq<U64>, ys: seq<U64>)
    requires NonDecreasing(xs, ys) && Total(ys) - Total(xs) < TWO_64
    ensures InPercentRange(CpuUsage(SampleFrom(xs), SampleFrom(ys)))
  {
    TotalGrows(xs, ys);
    SmallAdvance(Total(xs), Total(ys));
    if |xs| >= 4 {
      IdleAdvanceIsPart(xs, ys);
    }
  }

  lemma BusyShare(xs: seq<U64>, ys: seq<U64>)
    requires |xs| >= 4 && NonDecreasing(xs, ys) && Total(xs) / TWO_64 == Total(ys) / TWO_64
    ensures var cpu := CpuUsage(SampleFrom(xs), SampleFrom(ys));
      && (Total(xs) == Total(ys) ==> cpu == Percentage(0, 1))
      && (Total(xs) != Total(ys) ==>
            cpu == Percentage(Total(Without(ys, 3)) - Total(Without(xs, 3)), Total(ys) - Total(xs)))
  {
    TotalGrows(xs, ys);
    IdleAdvanceIsPart(xs, ys);
    assert SaturatingSub(Wrap(Total(ys)), Wrap(Total(xs))) == Total(ys) - Total(xs);
  }

  /** MAIN RESULT. From two samples whose parsed counters do not decrease and together advance by less than 2^64, the
      figure lies in [0, 100]. If the sum moreover does not wrap between them, it is the advance of all counters but
      the fourth as a share of the advance of all, or 0 when nothing advanced. */
  lemma CpuIsTheBusyShare(xs: seq<U64>, ys: seq<U64>, first: string, second: string)
    requires |xs| >= 4 && NonDecreasing(xs, ys) && Fields(first) == xs && Fields(second) == ys
    ensures var cpu := CpuUsage(SampleOf(Some(first)), SampleOf(Some(second)));
      && (Total(ys) - Total(xs) < TWO_64 ==> InPercentRange(cpu))
      && (Total(xs) / TWO_64 == Total(ys) / TWO_64 ==>
            cpu == if Total(xs) == Total(ys) then Percentage(0, 1)
                   else Percentage(Total(Without(ys, 3)) - Total(Without(xs, 3)), Total(ys) - Total(xs)))
  {
    if Total(ys) - Total(xs) < TWO_64 {
      NonDecreasingIsInRange(xs, ys);
    }
    if Total(xs) / TWO_64 == Total(ys) / TWO_64 {
      BusyShare(xs, ys);
    }
  }

  // ------------------------------------------------------------------------------------------------
  // The bounds of the panel.

  datatype Payload = Payload(
    totalMemory: int, usedMemory: int, totalDisk: int, usedDisk: int, cpuPercent: Percentage)

  predicate WithinBounds(p: Payload)
    requires p.cpuPercent.whole > 0
  {
    && p.totalMemory >= 0 && p.usedMemory >= 0 && p.totalDisk >= 0 && p.usedDisk >= 0
    && 0.0 <= AsReal(p.cpuPercent) <= 100.0
  }

  /** Everything the heartbeat reads: /proc/meminfo, statvfs, and /proc/stat twice. */
  datatype Readings = Readings(
    meminfo: Option<seq<string>>, stat: Option<Statvfs>, first: Option<string>, second: Option<string>)

  function PayloadOf(r: Readings): (p: Payload)
    ensures p.cpuPercent.whole > 0
  {
    var total := if r.meminfo.None? then 0 else Reading(r.meminfo.value, TOTAL);
    var available := if r.meminfo.None? then 0 else Reading(r.meminfo.value, AVAILABLE);
    var disk := DiskUsage(r.stat);
    Payload(Wrap(total * 1024), Used(total, available), disk.0, disk.1,
            CpuUsage(SampleOf(r.first), SampleOf(r.second)))
  }

  /** How far x lies above y, if it does. */
  function Above(x: int, y: int): int {
    if x > y then x - y else 0
  }

  method SendHeartbeat(r: Readings) returns (p: Payload)
    ensures p == PayloadOf(r)
    ensures r.meminfo.None? ==> p.totalMemory == p.usedMemory == 0
    ensures r.meminfo.Some? ==>
      var total, available := Reading(r.meminfo.value, "MemTotal:"), Reading(r.meminfo.value, "MemAvailable:");
      && p.totalMemory == total * 1024 % TWO_64
      && p.usedMemory == Above(total * 1024 % TWO_64, available * 1024 % TWO_64)
    ensures r.stat.None? ==> p.totalDisk == p.usedDisk == 0
    ensures r.stat.Some? ==>
      var s := r.stat.value;
      && p.totalDisk == s.blocks * s.fragmentSize % TWO_64
      && p.usedDisk == Above(s.blocks * s.fragmentSize % TWO_64, s.blocksAvailable * s.fragmentSize % TWO_64)
    ensures r.first.None? || r.second.None? ==> p.cpuPercent == Percentage(0, 1)
    ensures r.first.Some? && |Fields(r.first.value)| < 4 ==> p.cpuPercent == Percentage(0, 1)
    ensures r.second.Some? && |Fields(r.second.value)| < 4 ==> p.cpuPercent == Percentage(0, 1)
    ensures p.usedMemory <= p.totalMemory && p.usedDisk <= p.totalDisk
    ensures WithinBounds(p) <==> p.cpuPercent.part >= 0
  {
    var totalMemory, usedMemory := ReadMemoryInfo(r.meminfo);
    var disk := DiskUsage(r.stat);
    var cpu := CpuUsage(SampleOf(r.first), SampleOf(r.second));
    RangeIff(cpu);
    p := Payload(totalMemory, usedMemory, disk.0, disk.1, cpu);
  }

  /** MAIN RESULT. The panel accepts the heartbeat, whatever the memory and disk readings, unless both samples can be
      read and a counter goes back between them or they together advance by 2^64 or more. */
  lemma HeartbeatIsAccepted(r: Readings)
    requires r.first.Some? && r.second.Some? ==>
      && NonDecreasing(Fields(r.first.value), Fields(r.second.value))
      && Total(Fields(r.second.value)) - Total(Fields(r.first.value)) < TWO_64
    ensures WithinBounds(PayloadOf(r))
  {
    if r.first.Some? && r.second.Some? {
      NonDecreasingIsInRange(Fields(r.first.value), Fields(r.second.value));
    }
    RangeIff(CpuUsage(SampleOf(r.first), SampleOf(r.second)));
  }

  /** The same from the counters that the kernel prints. */
  lemma PrintedHeartbeatIsAccepted(r: Readings, xs: seq<U64>, ys: seq<U64>)
    requires r.first.Some? && r.second.Some?
    requires PrintsCounters(r.first.value, xs) && PrintsCounters(r.second.value, ys)
    requires NonDecreasing(xs, ys) && Total(ys) - Total(xs) < TWO_64
    ensures WithinBounds(PayloadOf(r))
  {
    LineIsRead(r.first.value, xs);
    LineIsRead(r.second.value, ys);
    HeartbeatIsAccepted(r);
  }

  lemma DecreasingFigure()
    ensures AsReal(CpuUsage(SampleFrom([10, 0, 0, 0]), SampleFrom([5, 0, 0, 10]))) == -100.0
  {
    assert Total([10, 0, 0, 0]) == 10 && Total([5, 0, 0, 10]) == 15;
  }

  /** A counter that goes back while the idle counter advances: the figure is negative and the panel refuses the
      whole heartbeat. */
  lemma DecreasingCounterIsRefused(r: Readings, xs: seq<U64>, ys: seq<U64>)
    requires xs == [10, 0, 0, 0] && ys == [5, 0, 0, 10] && r.first.Some? && r.second.Some?
    requires PrintsCounters(r.first.value, xs) && PrintsCounters(r.second.value, ys)
    ensures AsReal(PayloadOf(r).cpuPercent) == -100.0 && !WithinBounds(PayloadOf(r))
  {
    LineIsRead(r.first.value, xs);
    LineIsRead(r.second.value, ys);
    DecreasingFigure();
  }
}
