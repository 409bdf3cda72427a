/** Durations as text: `human`, which prints the two largest units that are not zero, and
    `_human_to_seconds`, which reads such text back. */
module Duration {
  import opened Base

  datatype Part = Part(count: int, unit: char)

  function UnitAt(k: nat): char
    requires k < 4
  {
    "dhms"[k]
  }

  function SizeAt(k: nat): nat
    requires k < 4
  {
    [86400, 3600, 60, 1][k]
  }

  /** How many of unit `k` there are in these seconds, whole, and what that leaves. */
  function CountAt(secs: int, k: nat): int
    requires k < 4
  {
    if k == 0 then secs / 86400 else if k == 1 then secs / 3600 else if k == 2 then secs / 60 else secs
  }

  function RestAt(secs: int, k: nat): int
    requires k < 4
  {
    if k == 0 then secs % 86400 else if k == 1 then secs % 3600 else if k == 2 then secs % 60 else 0
  }

  predicate IsUnit(c: char) {
    c == 'd' || c == 'h' || c == 'm' || c == 's'
  }

  /** The parts from unit `k` on: a unit's count where it is not zero, until there are two;
      seconds in any case when there is nothing else. */
  function PartsFrom(k: nat, secs: int, parts: seq<Part>): seq<Part>
    requires k <= 4
    decreases 4 - k
  {
    if k == 4 then parts
    else
      var take := secs >= SizeAt(k) || (k == 3 && parts == []);
      var parts' := if take then parts + [Part(CountAt(secs, k), UnitAt(k))] else parts;
      if |parts'| == 2 then parts'
      else PartsFrom(k + 1, if take then RestAt(secs, k) else secs, parts')
  }

  // ----------------------------------------------------------------------------- numerals

  predicate IsDigit(c: char) {
    '0' <= c <= '9'
  }

  function Digits(n: nat): (r: string)
    ensures r != "" && forall i :: 0 <= i < |r| ==> IsDigit(r[i])
    ensures n > 0 ==> r[0] != '0'
  {
    var last := ['0' + (n % 10) as char];
    if n < 10 then last else Digits(n / 10) + last
  }

  function Numeral(n: int): string {
    if n < 0 then "-" + Digits(-n) else Digits(n)
  }

  function Number(s: string): int
    requires forall i :: 0 <= i < |s| ==> IsDigit(s[i])
  {
    if s == "" then 0 else Number(s[..|s| - 1]) * 10 + (s[|s| - 1] as int - '0' as int)
  }

  lemma {:induction false} NumberOfDigits(n: nat)
    ensures Number(Digits(n)) == n
  {
    var r := Digits(n);
    if n >= 10 {
      NumberOfDigits(n / 10);
      assert r[..|r| - 1] == Digits(n / 10);
    } else {
      assert r[..0] == "";
    }
  }

  // ------------------------------------------------------------------------------- printing

  function TextOf(p: Part): string {
    Numeral(p.count) + [p.unit]
  }

  /** The parts' texts, without those that begin with a zero, unless there is only one. */
  function Joined(parts: seq<Part>, alone: bool): string {
    if parts == [] then ""
    else
      var last := parts[|parts| - 1];
      Joined(parts[..|parts| - 1], alone) + if alone || TextOf(last)[0] != '0' then TextOf(last) else ""
  }

  function Human(secs: int): string {
    var parts := PartsFrom(0, secs, []);
    Joined(parts, |parts| == 1)
  }

  method HumanText(secs: int) returns (text: string)
    ensures text == Human(secs)
  {
    var left, parts, k := secs, [], 0;
    while k < 4
      invariant 0 <= k <= 4
      invariant PartsFrom(0, secs, []) == PartsFrom(k, left, parts)
    {
      if left >= SizeAt(k) || (k == 3 && parts == []) {
        parts := parts + [Part(CountAt(left, k), UnitAt(k))];
        left := RestAt(left, k);
      }
      if |parts| == 2 {
        break;
      }
      k := k + 1;
    }
    text := "";
    for i := 0 to |parts|
      invariant text == Joined(parts[..i], |parts| == 1)
    {
      assert parts[..i + 1][..i] == parts[..i];
      if TextOf(parts[i])[0] != '0' || |parts| == 1 {
        text := text + TextOf(parts[i]);
      }
    }
    assert parts[..|parts|] == parts;
  }

  // -------------------------------------------------------------------------------- reading

  /** How many digits the text begins with. */
  function DigitRun(text: string): (k: nat)
    ensures k <= |text| && forall i :: 0 <= i < k ==> IsDigit(text[i])
    ensures k < |text| ==> !IsDigit(text[k])
  {
    if text == "" || !IsDigit(text[0]) then 0 else 1 + DigitRun(text[1..])
  }

  /** Every `digits unit` in the text, left to right. */
  function FindAll(text: string): seq<Part>
    decreases |text|
  {
    if text == "" then []
    else
      var k := DigitRun(text);
      if k == 0 then FindAll(text[1..])
      else if k == |text| then []
      else if IsUnit(text[k]) then [Part(Number(text[..k]), text[k])] + FindAll(text[k + 1..])
      else FindAll(text[k..])
  }

  /** A count times the size of its unit. */
  function Seconds(p: Part): int {
    if p.unit == 'd' then p.count * 86400 else if p.unit == 'h' then p.count * 3600
    else if p.unit == 'm' then p.count * 60 else p.count
  }

  function Total(parts: seq<Part>): int {
    if parts == [] then 0 else Seconds(parts[0]) + Total(parts[1..])
  }

  /** The seconds a text states; none when it states none, or zero. */
  function HumanToSeconds(text: string): Option<int> {
    var total := Total(FindAll(text));
    if total == 0 then None else Some(total)
  }

  // ------------------------------------------------------------------ reading what is printed

  lemma {:induction false} RunOfDigits(ds: string, rest: string)
    requires forall i :: 0 <= i < |ds| ==> IsDigit(ds[i])
    requires rest != "" && !IsDigit(rest[0])
    ensures DigitRun(ds + rest) == |ds|
  {
    if ds == "" {
      assert ds + rest == rest;
    } else {
      assert (ds + rest)[1..] == ds[1..] + rest;
      RunOfDigits(ds[1..], rest);
    }
  }

  lemma FindPart(p: Part, rest: string)
    requires p.count > 0 && IsUnit(p.unit)
    ensures FindAll(TextOf(p) + rest) == [p] + FindAll(rest)
    ensures TextOf(p)[0] != '0'
  {
    var ds, tail := Digits(p.count), [p.unit] + rest;
    var text := TextOf(p) + rest;
    assert text == ds + tail;
    RunOfDigits(ds, tail);
    NumberOfDigits(p.count);
    assert text[..|ds|] == ds && text[|ds|] == p.unit;
    assert text[|ds| + 1..] == rest;
  }

  ghost predicate Readable(p: Part) {
    p.count > 0 && IsUnit(p.unit)
  }

  lemma JoinedSnoc(parts: seq<Part>, p: Part, alone: bool)
    requires Readable(p)
    ensures Joined(parts + [p], alone) == Joined(parts, alone) + TextOf(p)
  {
    FindPart(p, "");
    assert (parts + [p])[..|parts|] == parts;
  }

  lemma ReadsBackOne(a: Part, alone: bool)
    requires Readable(a)
    ensures Joined([a], alone) == TextOf(a) && FindAll(TextOf(a)) == [a]
  {
    JoinedSnoc([], a, alone);
    assert [] + [a] == [a];
    FindPart(a, "");
    assert TextOf(a) + "" == TextOf(a);
  }

  lemma ReadsBackTwo(a: Part, b: Part)
    requires Readable(a) && Readable(b)
    ensures FindAll(Joined([a, b], false)) == [a, b]
  {
    ReadsBackOne(a, false);
    ReadsBackOne(b, false);
    JoinedSnoc([a], b, false);
    assert [a] + [b] == [a, b];
    FindPart(a, TextOf(b));
  }

  // --------------------------------------------------------------------- what the text keeps

  /** `n` as days, hours, minutes and seconds. */
  ghost predicate IsClock(n: int, d: int, h: int, m: int, s: int) {
    d >= 0 && 0 <= h < 24 && 0 <= m < 60 && 0 <= s < 60 && n == 86400 * d + 3600 * h + 60 * m + s
  }

  function NonZero(x: int): nat {
    if x == 0 then 0 else 1
  }

  /** A duration that takes at most two units to say. */
  ghost predicate TwoUnits(n: int) {
    exists d, h, m, s :: IsClock(n, d, h, m, s) && NonZero(d) + NonZero(h) + NonZero(m) + NonZero(s) <= 2
  }

  /** The seconds kept of a clock reading: its two first counts that are not zero. */
  function Kept(d: int, h: int, m: int, s: int): int {
    if d > 0 then 86400 * d + (if h > 0 then 3600 * h else if m > 0 then 60 * m else s)
    else if h > 0 then 3600 * h + (if m > 0 then 60 * m else s)
    else 60 * m + s
  }

  /** What is kept below the day, of a duration that has days or not. */
  lemma KeptBelowDay(one: bool, h: int, m: int, s: int, h': int, m': int, s': int)
    requires 0 <= h && 0 <= m < 60 && 0 <= s < 60 && 0 <= h' && 0 <= m' < 60 && 0 <= s' < 60
    requires 3600 * h' + 60 * m' + s' <= 3600 * h + 60 * m + s
    requires NonZero(h') + NonZero(m') + NonZero(s') <= if one then 1 else 2
    ensures 3600 * h' + 60 * m' + s' <=
            if one then (if h > 0 then 3600 * h else if m > 0 then 60 * m else s)
            else if h > 0 then 3600 * h + (if m > 0 then 60 * m else s) else 60 * m + s
  {
    assert h' <= h;
    if h' == h {
      assert m' <= m;
    }
  }

  lemma KeptIsGreatest(n: int, v: int, d: int, h: int, m: int, s: int, d': int, h': int, m': int, s': int)
    requires IsClock(n, d, h, m, s) && IsClock(v, d', h', m', s') && v <= n
    requires NonZero(d') + NonZero(h') + NonZero(m') + NonZero(s') <= 2
    ensures v <= Kept(d, h, m, s)
  {
    assert d' <= d;
    if d' == d {
      KeptBelowDay(d > 0, h, m, s, h', m', s');
    }
  }

  /** The unit after one already printed: the next count that is not zero, if any. */
  function Next(h: int, m: int, s: int): seq<Part> {
    if h > 0 then [Part(h, 'h')] else if m > 0 then [Part(m, 'm')] else if s > 0 then [Part(s, 's')] else []
  }

  /** What is printed of a positive duration: its first two counts that are not zero. */
  function ClockParts(d: int, h: int, m: int, s: int): seq<Part> {
    if d > 0 then [Part(d, 'd')] + Next(h, m, s)
    else if h > 0 then [Part(h, 'h')] + Next(0, m, s)
    else if m > 0 then [Part(m, 'm')] + Next(0, 0, s)
    else [Part(s, 's')]
  }

  /** The size of the last unit printed. */
  function LastUnit(parts: seq<Part>): nat {
    if parts == [] then 0 else Seconds(Part(1, parts[|parts| - 1].unit))
  }

  lemma KeptTwoUnits(n: int, d: int, h: int, m: int, s: int)
    requires IsClock(n, d, h, m, s)
    ensures TwoUnits(Kept(d, h, m, s)) && n - LastUnit(ClockParts(d, h, m, s)) < Kept(d, h, m, s) <= n
    ensures n > 0 ==> Kept(d, h, m, s) > 0
  {
    if d > 0 {
      assert IsClock(Kept(d, h, m, s), d, h, if h > 0 then 0 else m, if h > 0 || m > 0 then 0 else s);
    } else {
      assert IsClock(Kept(d, h, m, s), 0, h, m, if h > 0 && m > 0 then 0 else s);
    }
  }

  lemma AfterMinutes(p: Part, s: int)
    requires 0 <= s < 60
    ensures PartsFrom(3, s, [p]) == [p] + Next(0, 0, s)
  {
  }

  lemma AfterHours(p: Part, m: int, s: int)
    requires 0 <= m < 60 && 0 <= s < 60
    ensures PartsFrom(2, 60 * m + s, [p]) == [p] + Next(0, m, s)
  {
    AfterMinutes(p, s);
    assert (60 * m + s) / 60 == m && (60 * m + s) % 60 == s;
  }

  lemma AfterDays(p: Part, h: int, m: int, s: int)
    requires 0 <= h < 24 && 0 <= m < 60 && 0 <= s < 60
    ensures PartsFrom(1, 3600 * h + 60 * m + s, [p]) == [p] + Next(h, m, s)
  {
    AfterHours(p, m, s);
    assert (3600 * h + 60 * m + s) / 3600 == h && (3600 * h + 60 * m + s) % 3600 == 60 * m + s;
  }

  lemma WithinHour(m: int, s: int)
    requires 0 <= m < 60 && 0 <= s < 60 && m + s > 0
    ensures PartsFrom(2, 60 * m + s, []) == if m > 0 then [Part(m, 'm')] + Next(0, 0, s) else [Part(s, 's')]
  {
    var n := 60 * m + s;
    assert n / 60 == m && n % 60 == s;
    if m > 0 {
      AfterMinutes(Part(m, 'm'), s);
      assert [] + [Part(m, 'm')] == [Part(m, 'm')];
    } else {
      assert PartsFrom(2, n, []) == PartsFrom(3, s, []);
      assert [] + [Part(s, 's')] == [Part(s, 's')];
    }
  }

  lemma WithinDay(h: int, m: int, s: int)
    requires 0 <= h < 24 && 0 <= m < 60 && 0 <= s < 60 && h + m + s > 0
    ensures PartsFrom(1, 3600 * h + 60 * m + s, [])
            == if h > 0 then [Part(h, 'h')] + Next(0, m, s)
               else if m > 0 then [Part(m, 'm')] + Next(0, 0, s) else [Part(s, 's')]
  {
    var n := 3600 * h + 60 * m + s;
    assert n / 3600 == h && n % 3600 == 60 * m + s;
    if h > 0 {
      AfterHours(Part(h, 'h'), m, s);
      assert [] + [Part(h, 'h')] == [Part(h, 'h')];
    } else {
      WithinHour(m, s);
    }
  }

  lemma PartsOfClock(n: nat, d: int, h: int, m: int, s: int)
    requires n > 0 && IsClock(n, d, h, m, s)
    ensures PartsFrom(0, n, []) == ClockParts(d, h, m, s)
  {
    var rest := 3600 * h + 60 * m + s;
    assert n / 86400 == d && n % 86400 == rest;
    if d > 0 {
      AfterDays(Part(d, 'd'), h, m, s);
      assert [] + [Part(d, 'd')] == [Part(d, 'd')];
    } else {
      WithinDay(h, m, s);
    }
  }

  lemma PartsReadBack(parts: seq<Part>)
    requires 1 <= |parts| <= 2 && forall i :: 0 <= i < |parts| ==> Readable(parts[i])
    ensures FindAll(Joined(parts, |parts| == 1)) == parts
  {
    if |parts| == 1 {
      assert parts == [parts[0]];
      ReadsBackOne(parts[0], true);
    } else {
      assert parts == [parts[0], parts[1]];
      ReadsBackTwo(parts[0], parts[1]);
    }
  }

  lemma NextTotal(p: Part, h: int, m: int, s: int)
    requires 0 <= h && 0 <= m && 0 <= s
    ensures Total([p] + Next(h, m, s)) == Seconds(p) + if h > 0 then 3600 * h else if m > 0 then 60 * m else s
  {
    TotalOne(p);
    var next := Next(h, m, s);
    if next == [] {
      assert [p] + next == [p];
    } else {
      TotalTwo(p, next[0]);
      assert [p] + next == [p, next[0]];
    }
  }

  lemma ClockTotal(n: nat, d: int, h: int, m: int, s: int)
    requires IsClock(n, d, h, m, s)
    ensures Total(ClockParts(d, h, m, s)) == Kept(d, h, m, s)
  {
    if d > 0 {
      NextTotal(Part(d, 'd'), h, m, s);
    } else if h > 0 {
      NextTotal(Part(h, 'h'), 0, m, s);
    } else if m > 0 {
      NextTotal(Part(m, 'm'), 0, 0, s);
    } else {
      TotalOne(Part(s, 's'));
    }
  }

  lemma ClockReadsBack(n: nat, d: int, h: int, m: int, s: int)
    requires n > 0 && IsClock(n, d, h, m, s)
    ensures HumanToSeconds(Human(n)) == Some(Kept(d, h, m, s))
    ensures FindAll(Human(n)) == ClockParts(d, h, m, s)
    ensures Human(n) == var parts := ClockParts(d, h, m, s); Joined(parts, |parts| == 1)
  {
    PartsOfClock(n, d, h, m, s);
    PartsReadBack(ClockParts(d, h, m, s));
    ClockTotal(n, d, h, m, s);
    KeptTwoUnits(n, d, h, m, s);
  }

  lemma TotalOne(a: Part)
    ensures Total([a]) == Seconds(a)
  {
    assert [a][1..] == [];
  }

  lemma TotalTwo(a: Part, b: Part)
    ensures Total([a, b]) == Seconds(a) + Seconds(b)
  {
    assert [a, b][1..] == [b];
    TotalOne(b);
  }

  lemma HasClock(n: nat) returns (d: int, h: int, m: int, s: int)
    ensures IsClock(n, d, h, m, s)
  {
    var rest := n % 86400;
    var within := rest % 3600;
    d, h, m, s := n / 86400, rest / 3600, within / 60, within % 60;
  }

  /** For every positive duration, the text is read as the greatest duration of at most two
      units that is no longer, less than one of the last unit printed below it. */
  lemma ReadIsGreatest(n: nat)
    requires n > 0
    ensures var r := HumanToSeconds(Human(n));
            && r.Some? && 0 < r.value <= n && TwoUnits(r.value)
            && (forall v :: TwoUnits(v) && v <= n ==> v <= r.value)
            && n - r.value < LastUnit(FindAll(Human(n)))
  {
    var d, h, m, s := HasClock(n);
    ClockReadsBack(n, d, h, m, s);
    KeptTwoUnits(n, d, h, m, s);
    forall v | TwoUnits(v) && v <= n
      ensures v <= Kept(d, h, m, s)
    {
      var d', h', m', s' :| IsClock(v, d', h', m', s') && NonZero(d') + NonZero(h') + NonZero(m') + NonZero(s') <= 2;
      KeptIsGreatest(n, v, d, h, m, s, d', h', m', s');
    }
  }

  /** Longer durations never read shorter. */
  lemma ReadIsMonotone(n: nat, n': nat)
    requires 0 < n <= n'
    ensures var r, r' := HumanToSeconds(Human(n)), HumanToSeconds(Human(n'));
            r.Some? && r'.Some? && r.value <= r'.value
  {
    ReadIsGreatest(n);
    ReadIsGreatest(n');
  }

  /** Printing what was read gives the same text, and reading that the same duration. */
  lemma PrintedAgain(n: nat)
    requires n > 0
    ensures HumanToSeconds(Human(n)).Some?
    ensures Human(HumanToSeconds(Human(n)).value) == Human(n)
  {
    var d, h, m, s := HasClock(n);
    ClockReadsBack(n, d, h, m, s);
    KeptTwoUnits(n, d, h, m, s);
    var kept := Kept(d, h, m, s);
    var h' := h;
    var m' := if d > 0 && h > 0 then 0 else m;
    var s' := if (d > 0 && (h > 0 || m > 0)) || (h > 0 && m > 0) then 0 else s;
    assert IsClock(kept, d, h', m', s');
    ClockReadsBack(kept, d, h', m', s');
    assert ClockParts(d, h', m', s') == ClockParts(d, h, m, s);
  }

  lemma FindZero()
    ensures FindAll("0s") == [Part(0, 's')]
  {
    RunOfDigits("0", "s");
    assert "0" + "s" == "0s" && "0s"[..1] == "0" && "0s"[2..] == "" && "0"[..0] == "";
  }

  lemma PrintZero()
    ensures Human(0) == "0s"
  {
    assert [] + [Part(0, 's')] == [Part(0, 's')];
    assert PartsFrom(3, 0, []) == [Part(0, 's')];
    assert PartsFrom(2, 0, []) == PartsFrom(3, 0, []);
    assert PartsFrom(0, 0, []) == PartsFrom(1, 0, []) == PartsFrom(2, 0, []);
    var parts := [Part(0, 's')];
    assert parts[..0] == [] && Joined([], true) == "";
    assert Digits(0) == "0";
  }

  /** Nought seconds print, and are read as no duration. */
  lemma ZeroIsLost()
    ensures Human(0) == "0s" && HumanToSeconds(Human(0)) == None
  {
    PrintZero();
    FindZero();
    TotalOne(Part(0, 's'));
  }
}
