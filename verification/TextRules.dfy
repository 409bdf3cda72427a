/**
 What is read of any text as a duration, by the places of its characters; and how a negative
 one prints.
 */
module TextRules {
  import opened Duration

  /** From `a` to `b` there are digits, all there are in a row, and then a unit. */
  ghost predicate IsMatch(text: string, a: nat, b: nat) {
    && a < b < |text| && IsUnit(text[b])
    && (forall i :: a <= i < b ==> '0' <= text[i] <= '9')
    && (a > 0 ==> !('0' <= text[a - 1] <= '9'))
  }

  ghost predicate IsFound(text: string, a: nat, b: nat, p: Part) {
    IsMatch(text, a, b) && p.unit == text[b] && p.count == Number(text[a..b])
  }

  /** The parts are those that end at these places, in order, and from `n` on there are no
      others. */
  ghost predicate FoundFrom(text: string, n: nat, parts: seq<Part>, from: seq<nat>, to: seq<nat>) {
    && |from| == |parts| && |to| == |parts|
    && (forall i, j :: 0 <= i < j < |to| ==> to[i] < to[j])
    && (forall j :: 0 <= j < |parts| ==> n <= from[j] && IsFound(text, from[j], to[j], parts[j]))
    && (forall b: nat :: IsEnd(text, n, b) ==> b in to)
  }

  /** A match that begins at `n` or later ends here. */
  ghost predicate IsEnd(text: string, n: nat, b: nat) {
    exists a: nat :: a >= n && IsMatch(text, a, b)
  }

  /** No digits before `n` go on after it. */
  predicate Apart(text: string, n: nat) {
    n <= |text| && (0 < n < |text| && IsDigit(text[n]) ==> !IsDigit(text[n - 1]))
  }

  predicate AllDigits(text: string, n: nat, m: nat) {
    n <= m <= |text| && forall i :: n <= i < m ==> IsDigit(text[i])
  }

  lemma MatchEnds(text: string, n: nat, m: nat, a: nat, b: nat)
    requires AllDigits(text, n, m) && m < |text| && !IsDigit(text[m]) && IsMatch(text, a, b) && n <= a
    ensures a > m || b == m
  {
  }

  lemma MatchStarts(text: string, n: nat, m: nat, a: nat)
    requires AllDigits(text, n, m) && IsMatch(text, a, m) && n <= a && (n > 0 ==> !IsDigit(text[n - 1]))
    ensures a == n
  {
  }

  lemma NoneInDigits(text: string, n: nat, a: nat, b: nat)
    requires AllDigits(text, n, |text|) && IsMatch(text, a, b)
    ensures a < n
  {
  }

  lemma FoundNone(text: string, n: nat)
    requires AllDigits(text, n, |text|)
    ensures FoundFrom(text, n, [], [], [])
  {
    forall b: nat | IsEnd(text, n, b)
      ensures false
    {
      var a: nat :| a >= n && IsMatch(text, a, b);
      NoneInDigits(text, n, a, b);
    }
  }

  /** What comes before `m` is no match. */
  lemma FoundLater(text: string, n: nat, m: nat, n': nat, parts: seq<Part>, from: seq<nat>, to: seq<nat>)
    requires AllDigits(text, n, m) && m < |text| && !IsDigit(text[m]) && !IsUnit(text[m]) && m <= n' <= m + 1
    requires FoundFrom(text, n', parts, from, to)
    ensures FoundFrom(text, n, parts, from, to)
  {
    forall b: nat | IsEnd(text, n, b)
      ensures b in to
    {
      var a: nat :| a >= n && IsMatch(text, a, b);
      MatchEnds(text, n, m, a, b);
      assert IsEnd(text, n', b);
    }
  }

  /** The digits from `n` on come before a unit. */
  lemma FoundFirst(text: string, n: nat, m: nat, parts: seq<Part>, from: seq<nat>, to: seq<nat>)
    requires parts != []
    requires AllDigits(text, n, m) && n < m < |text| && !IsDigit(text[m]) && IsFound(text, n, m, parts[0])
    requires FoundFrom(text, m + 1, parts[1..], from, to)
    ensures FoundFrom(text, n, parts, [n] + from, [m] + to)
  {
    var from', to' := [n] + from, [m] + to;
    forall j | 0 <= j < |parts|
      ensures n <= from'[j] && IsFound(text, from'[j], to'[j], parts[j]) && (j > 0 ==> to'[j] > m)
    {
      if j > 0 {
        assert m < from[j - 1] && IsFound(text, from[j - 1], to[j - 1], parts[1..][j - 1]);
      }
    }
    forall b: nat | IsEnd(text, n, b)
      ensures b in to'
    {
      var a: nat :| a >= n && IsMatch(text, a, b);
      MatchEnds(text, n, m, a, b);
      if b == m {
        assert to'[0] == m;
      } else {
        assert IsEnd(text, m + 1, b);
      }
    }
  }

  /** What is found in the rest, by the run of digits it begins with. */
  lemma {:induction false} FindsNext(text: string, n: nat, k: nat)
    requires n <= |text| && k == DigitRun(text[n..])
    ensures AllDigits(text, n, n + k) && (n + k < |text| ==> !IsDigit(text[n + k]))
    ensures n + k == |text| ==> FindAll(text[n..]) == []
    ensures n + k < |text| && k > 0 && IsUnit(text[n + k]) ==>
              FindAll(text[n..]) == [Part(Number(text[n..n + k]), text[n + k])] + FindAll(text[n + k + 1..])
    ensures n + k < |text| && k > 0 && !IsUnit(text[n + k]) ==> FindAll(text[n..]) == FindAll(text[n + k..])
    ensures n + k < |text| && k == 0 ==> FindAll(text[n..]) == FindAll(text[n + 1..])
  {
    var rest := text[n..];
    assert forall i :: n <= i < |text| ==> text[i] == rest[i - n];
    if n + k < |text| {
      assert rest[k] == text[n + k] && rest[..k] == text[n..n + k] && rest[k..] == text[n + k..];
      assert rest[k + 1..] == text[n + k + 1..];
    }
  }

  /** The places after `n`, in each case, and then those from `n` on. */
  lemma {:induction false} FoundOnward(text: string, n: nat, k: nat, next: nat, parts: seq<Part>, from: seq<nat>, to: seq<nat>)
      returns (from': seq<nat>, to': seq<nat>)
    requires AllDigits(text, n, n + k) && n + k < |text| && !IsDigit(text[n + k])
    requires next == if k > 0 && !IsUnit(text[n + k]) then n + k else n + k + 1
    requires if k > 0 && IsUnit(text[n + k])
             then parts != [] && IsFound(text, n, n + k, parts[0]) && FoundFrom(text, next, parts[1..], from, to)
             else FoundFrom(text, next, parts, from, to)
    ensures FoundFrom(text, n, parts, from', to')
  {
    if k > 0 && IsUnit(text[n + k]) {
      from', to' := [n] + from, [n + k] + to;
      FoundFirst(text, n, n + k, parts, from, to);
    } else {
      from', to' := from, to;
      if k > 0 {
        FoundLater(text, n, n + k, next, parts, from, to);
      } else {
        FoundSkip(text, n, parts, from, to);
      }
    }
  }

  lemma {:induction false} FindsFrom(text: string, n: nat, parts: seq<Part>) returns (from: seq<nat>, to: seq<nat>)
    requires Apart(text, n) && parts == FindAll(text[n..])
    ensures FoundFrom(text, n, parts, from, to)
    decreases |text| - n
  {
    var k := DigitRun(text[n..]);
    FindsNext(text, n, k);
    if n + k == |text| {
      from, to := [], [];
      FoundNone(text, n);
    } else {
      var next := if k > 0 && !IsUnit(text[n + k]) then n + k else n + k + 1;
      from, to := FindsFrom(text, next, if k > 0 && IsUnit(text[n + k]) then parts[1..] else parts);
      from, to := FoundOnward(text, n, k, next, parts, from, to);
    }
  }

  lemma FoundSkip(text: string, n: nat, parts: seq<Part>, from: seq<nat>, to: seq<nat>)
    requires n < |text| && !IsDigit(text[n]) && FoundFrom(text, n + 1, parts, from, to)
    ensures FoundFrom(text, n, parts, from, to)
  {
    forall b: nat | IsEnd(text, n, b)
      ensures b in to
    {
      assert IsEnd(text, n + 1, b);
    }
  }

  /** Whatever the text, what is found are its digits before a unit, each as far back as digits
      go, in order and none left out. */
  lemma FindsAll(text: string) returns (from: seq<nat>, to: seq<nat>)
    ensures FoundFrom(text, 0, FindAll(text), from, to)
  {
    assert text[0..] == text;
    from, to := FindsFrom(text, 0, FindAll(text));
  }

  /** A negative number of seconds prints as its seconds with a sign. */
  lemma NegativePrints(secs: int)
    requires secs < 0
    ensures Human(secs) == "-" + Digits(-secs) + "s" && Number(Digits(-secs)) == -secs
  {
    var part := Part(secs, 's');
    NumberOfDigits(-secs);
    NegativeParts(secs);
    assert [part][..0] == [] && Joined([], true) == "";
    assert Joined([part], true) == "" + TextOf(part);
  }

  lemma NegativeParts(secs: int)
    requires secs < 0
    ensures PartsFrom(0, secs, []) == [Part(secs, 's')]
  {
    assert PartsFrom(0, secs, []) == PartsFrom(1, secs, []) == PartsFrom(2, secs, []) == PartsFrom(3, secs, []);
    assert PartsFrom(3, secs, []) == PartsFrom(4, secs, [] + [Part(secs, 's')]);
  }
}
