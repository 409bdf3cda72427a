/** Splitting an answer for Slack (`chunk`), at paragraph breaks if it can, then at line
    breaks, and in the middle of a line if it must. */
module Chunk {
  import opened Base

  /** The last place `c` is in the text, or -1. */
  function LastOf(text: string, c: char): (at: int)
    ensures -1 <= at < |text|
    ensures at >= 0 ==> text[at] == c
    ensures forall i :: at < i < |text| ==> text[i] != c
  {
    if text == "" then -1
    else if text[|text| - 1] == c then |text| - 1
    else LastOf(text[..|text| - 1], c)
  }

  /** The last place the text has two `c` in a row, or -1. */
  function LastPairOf(text: string, c: char): (at: int)
    ensures at == -1 || 0 <= at < |text| - 1
    ensures at >= 0 ==> text[at] == c && text[at + 1] == c
    ensures forall i :: at < i < |text| - 1 && i >= 0 ==> text[i] != c || text[i + 1] != c
  {
    if |text| < 2 then -1
    else if text[|text| - 2] == c && text[|text| - 1] == c then |text| - 2
    else LastPairOf(text[..|text| - 1], c)
  }

  /** `lstrip("\n")`: without the line ends it begins with. */
  function LStripped(text: string): (r: string)
    ensures |r| <= |text|
    ensures text != "" && text[0] == '\n' ==> |r| < |text|
  {
    if text == "" || text[0] != '\n' then text else LStripped(text[1..])
  }

  function NonSpace(text: string): string {
    if text == "" then ""
    else NonSpace(text[..|text| - 1]) + if IsSpace(text[|text| - 1]) then "" else [text[|text| - 1]]
  }

  function Concat(parts: seq<string>): string {
    if parts == [] then "" else Concat(parts[..|parts| - 1]) + parts[|parts| - 1]
  }

  /** Where a window is cut: before the last paragraph break of its second half, else
      before the last line break there, else at its end. */
  ghost predicate IsCut(window: string, cut: int) {
    var half := |window| / 2;
    if exists i :: half <= i < |window| - 1 && window[i] == '\n' && window[i + 1] == '\n' then
      && half <= cut < |window| - 1 && window[cut] == '\n' && window[cut + 1] == '\n'
      && forall i :: cut < i < |window| - 1 ==> window[i] != '\n' || window[i + 1] != '\n'
    else if exists i :: half <= i < |window| && window[i] == '\n' then
      && half <= cut < |window| && window[cut] == '\n'
      && forall i :: cut < i < |window| ==> window[i] != '\n'
    else cut == |window|
  }

  method CutOf(window: string) returns (cut: nat)
    ensures IsCut(window, cut) && cut <= |window|
    ensures cut < |window| ==> window[cut] == '\n'
  {
    var limit := |window|;
    var at := LastPairOf(window, '\n');
    if at < limit / 2 {
      at := LastOf(window, '\n');
    }
    if at < limit / 2 {
      at := limit;
    }
    cut := at;
  }

  lemma NonSpaceSnoc(text: string, c: char)
    ensures NonSpace(text + [c]) == NonSpace(text) + if IsSpace(c) then "" else [c]
  {
    assert (text + [c])[..|text|] == text;
  }

  lemma {:induction false} NonSpaceConcat(a: string, b: string)
    ensures NonSpace(a + b) == NonSpace(a) + NonSpace(b)
  {
    if b == "" {
      assert a + b == a && NonSpace(a) + "" == NonSpace(a);
    } else {
      var front, last := b[..|b| - 1], b[|b| - 1];
      NonSpaceConcat(a, front);
      NonSpaceSnoc(a + front, last);
      NonSpaceSnoc(front, last);
      FrontAndLast(b);
      Associative(a, front, [last]);
      Associative(NonSpace(a), NonSpace(front), if IsSpace(last) then "" else [last]);
    }
  }

  lemma {:induction false} RStripKeeps(text: string)
    ensures NonSpace(RStripped(text)) == NonSpace(text)
  {
    if text != "" && IsSpace(text[|text| - 1]) {
      RStripKeeps(text[..|text| - 1]);
      assert NonSpace(text[..|text| - 1]) + "" == NonSpace(text[..|text| - 1]);
    }
  }

  lemma {:induction false} LStripKeeps(text: string)
    ensures NonSpace(LStripped(text)) == NonSpace(text)
  {
    if text != "" && text[0] == '\n' {
      LStripKeeps(text[1..]);
      NonSpaceConcat(text[..1], text[1..]);
      assert text == text[..1] + text[1..];
      assert text[..1][..0] == "" && NonSpace(text[..1]) == "";
      assert "" + NonSpace(text[1..]) == NonSpace(text[1..]);
    }
  }

  /** Nothing but white space is lost between a part and what remains after it. */
  lemma CutLosesNothing(parts: seq<string>, remaining: string, cut: nat)
    requires cut <= |remaining|
    ensures NonSpace(Concat(parts + [RStripped(remaining[..cut])])) + NonSpace(LStripped(remaining[cut..]))
            == NonSpace(Concat(parts)) + NonSpace(remaining)
  {
    var head, tail := remaining[..cut], remaining[cut..];
    RStripKeeps(head);
    LStripKeeps(tail);
    NonSpaceConcat(head, tail);
    assert remaining == head + tail;
    AppendPart(parts, RStripped(head));
    Associative(NonSpace(Concat(parts)), NonSpace(head), NonSpace(tail));
  }

  lemma AppendPart(parts: seq<string>, part: string)
    ensures NonSpace(Concat(parts + [part])) == NonSpace(Concat(parts)) + NonSpace(part)
  {
    assert (parts + [part])[..|parts|] == parts;
    NonSpaceConcat(Concat(parts), part);
  }

  /** Only line ends are taken, and all there are at the start. */
  lemma {:induction false} LStrippedIs(text: string)
    ensures var r := LStripped(text);
            && r == text[|text| - |r|..] && (forall i :: 0 <= i < |text| - |r| ==> text[i] == '\n')
            && (r == "" || r[0] != '\n')
  {
    if text != "" && text[0] == '\n' {
      LStrippedIs(text[1..]);
      var n := |text| - |LStripped(text)|;
      assert text[1..][n - 1..] == text[n..];
      assert forall i :: 0 < i < n ==> text[i] == text[1..][i - 1];
    }
  }

  /** `r` is the text without the white space it ends in. */
  ghost predicate IsRTrimmed(text: string, r: string) {
    && |r| <= |text| && r == text[..|r|] && (forall i :: |r| <= i < |text| ==> IsSpace(text[i]))
    && (r == "" || !IsSpace(r[|r| - 1]))
  }

  /** `r` is the text without the line ends it begins with. */
  ghost predicate IsLTrimmed(text: string, r: string) {
    && |r| <= |text| && r == text[|text| - |r|..] && (forall i :: 0 <= i < |text| - |r| ==> text[i] == '\n')
    && (r == "" || r[0] != '\n')
  }

  ghost predicate CutsAt(remaining: string, limit: nat, part: string, rest: string, cut: nat) {
    && cut <= limit <= |remaining| && IsCut(remaining[..limit], cut)
    && IsRTrimmed(remaining[..cut], part) && IsLTrimmed(remaining[cut..], rest)
  }

  /** The window is cut where it is to be, and what is on either side of the cut trimmed. */
  ghost predicate CutsInto(remaining: string, limit: nat, part: string, rest: string) {
    exists cut: nat :: CutsAt(remaining, limit, part, rest, cut)
  }

  /** One part cut off a text longer than the limit. */
  method CutPart(remaining: string, limit: nat) returns (part: string, rest: string, ghost cut: nat)
    requires 0 < limit < |remaining|
    ensures CutsInto(remaining, limit, part, rest) && cut <= |remaining|
    ensures part == RStripped(remaining[..cut]) && rest == LStripped(remaining[cut..])
    ensures |part| <= limit && |rest| < |remaining|
  {
    var window := remaining[..limit];
    var at := CutOf(window);
    cut := at;
    assert at < limit ==> remaining[at..][0] == window[at];
    part, rest := RStripped(remaining[..at]), LStripped(remaining[at..]);
    RStrippedIs(remaining[..at]);
    LStrippedIs(remaining[at..]);
    assert CutsAt(remaining, limit, part, rest, cut);
  }

  /** Each part is cut off what remained before it, while that was too long. */
  ghost predicate CutsTo(text: string, limit: nat, parts: seq<string>, rests: seq<string>) {
    && |rests| == |parts| + 1 && rests[0] == text
    && forall k {:trigger IsCutOff(limit, parts, rests, k)} :: 0 <= k < |parts| ==> IsCutOff(limit, parts, rests, k)
  }

  ghost predicate IsCutOff(limit: nat, parts: seq<string>, rests: seq<string>, k: nat)
    requires k < |parts| && |rests| == |parts| + 1
  {
    |rests[k]| > limit && CutsInto(rests[k], limit, parts[k], rests[k + 1])
  }

  lemma CutsOn(text: string, limit: nat, parts: seq<string>, rests: seq<string>, part: string, rest: string)
    requires CutsTo(text, limit, parts, rests) && |rests[|parts|]| > limit && CutsInto(rests[|parts|], limit, part, rest)
    ensures CutsTo(text, limit, parts + [part], rests + [rest])
  {
    var parts', rests' := parts + [part], rests + [rest];
    forall k | 0 <= k < |parts'|
      ensures IsCutOff(limit, parts', rests', k)
    {
      if k < |parts| {
        assert IsCutOff(limit, parts, rests, k);
      }
    }
  }

  /** A text within the limit is one part; a longer one comes apart as `CutsTo` says, and what
      remains at the end is the last part, if there is any. */
  ghost predicate IsChunked(text: string, limit: nat, parts: seq<string>) {
    if |text| <= limit then parts == [text] else exists cuts, rests :: ChunkedBy(text, limit, parts, cuts, rests)
  }

  ghost predicate ChunkedBy(text: string, limit: nat, parts: seq<string>, cuts: seq<string>, rests: seq<string>) {
    && CutsTo(text, limit, cuts, rests) && |rests[|cuts|]| <= limit
    && parts == cuts + if rests[|cuts|] == "" then [] else [rests[|cuts|]]
  }

  ghost predicate AllWithin(parts: seq<string>, limit: nat) {
    forall i :: 0 <= i < |parts| ==> |parts[i]| <= limit
  }

  /** The parts, and then what remains, have the text's characters but white space. */
  ghost predicate Keeps(parts: seq<string>, remaining: string, text: string) {
    NonSpace(Concat(parts)) + NonSpace(remaining) == NonSpace(text)
  }

  lemma NoPartKeeps(text: string)
    ensures Keeps([], text, text)
  {
  }

  lemma CutKeeps(parts: seq<string>, remaining: string, text: string, cut: nat)
    requires cut <= |remaining| && Keeps(parts, remaining, text)
    ensures Keeps(parts + [RStripped(remaining[..cut])], LStripped(remaining[cut..]), text)
  {
    CutLosesNothing(parts, remaining, cut);
  }

  lemma LastKeeps(parts: seq<string>, remaining: string, text: string)
    requires Keeps(parts, remaining, text)
    ensures NonSpace(Concat(parts + [remaining])) == NonSpace(text)
    ensures remaining == "" ==> NonSpace(Concat(parts)) == NonSpace(text)
  {
    AppendPart(parts, remaining);
  }

  lemma OnePart(text: string)
    ensures NonSpace(Concat([text])) == NonSpace(text)
  {
    NoPartKeeps(text);
    LastKeeps([], text, text);
    assert [] + [text] == [text];
  }

  /** What holds of the parts cut off so far, and of what remains. */
  ghost predicate SoFar(text: string, limit: nat, parts: seq<string>, rests: seq<string>, remaining: string) {
    && CutsTo(text, limit, parts, rests) && remaining == rests[|parts|]
    && AllWithin(parts, limit) && Keeps(parts, remaining, text)
  }

  lemma NothingSoFar(text: string, limit: nat)
    ensures SoFar(text, limit, [], [text], text)
  {
    NoPartKeeps(text);
  }

  lemma SoFarOn(text: string, limit: nat, parts: seq<string>, rests: seq<string>, remaining: string, part: string, rest: string, cut: nat)
    requires SoFar(text, limit, parts, rests, remaining) && |remaining| > limit && |part| <= limit && cut <= |remaining|
    requires CutsInto(remaining, limit, part, rest) && part == RStripped(remaining[..cut]) && rest == LStripped(remaining[cut..])
    ensures SoFar(text, limit, parts + [part], rests + [rest], rest)
  {
    CutKeeps(parts, remaining, text, cut);
    CutsOn(text, limit, parts, rests, part, rest);
    WithinMore(parts, part, limit);
  }

  /** Parts are cut off until no more than the limit remains. */
  method CutParts(text: string, limit: nat) returns (parts: seq<string>, remaining: string, ghost rests: seq<string>)
    requires 0 < limit < |text|
    ensures |parts| >= 1 && |remaining| <= limit && SoFar(text, limit, parts, rests, remaining)
  {
    parts, remaining, rests := [], text, [text];
    NothingSoFar(text, limit);
    while |remaining| > limit
      invariant SoFar(text, limit, parts, rests, remaining)
      invariant parts == [] ==> remaining == text
      decreases |remaining|
    {
      var part, rest, cut := CutPart(remaining, limit);
      SoFarOn(text, limit, parts, rests, remaining, part, rest, cut);
      parts, remaining, rests := parts + [part], rest, rests + [rest];
    }
  }

  lemma WithinMore(parts: seq<string>, part: string, limit: nat)
    requires AllWithin(parts, limit) && |part| <= limit
    ensures AllWithin(parts + [part], limit)
  {
  }

  method ChunkLong(text: string, limit: nat) returns (parts: seq<string>)
    requires 0 < limit < |text|
    ensures |parts| >= 1 && AllWithin(parts, limit)
    ensures NonSpace(Concat(parts)) == NonSpace(text) && IsChunked(text, limit, parts)
  {
    var remaining;
    ghost var rests;
    parts, remaining, rests := CutParts(text, limit);
    ghost var cuts := parts;
    LastKeeps(parts, remaining, text);
    if remaining != "" {
      WithinMore(parts, remaining, limit);
      parts := parts + [remaining];
    }
    assert ChunkedBy(text, limit, parts, cuts, rests);
  }

  /** Every text comes apart into at least one part, none longer than the limit, with every
      character that is not white space in its place. */
  method ChunkText(text: string, limit: nat) returns (parts: seq<string>)
    requires limit > 0 || |text| <= limit
    ensures |parts| >= 1 && AllWithin(parts, limit)
    ensures NonSpace(Concat(parts)) == NonSpace(text) && IsChunked(text, limit, parts)
  {
    if |text| <= limit {
      OnePart(text);
      parts := [text];
    } else {
      parts := ChunkLong(text, limit);
    }
  }

  lemma OneCut(window: string, a: nat, b: nat)
    requires IsCut(window, a) && IsCut(window, b)
    ensures a == b
  {
  }

  lemma TrimmedOnce(text: string, a: string, b: string)
    ensures IsRTrimmed(text, a) && IsRTrimmed(text, b) ==> a == b
    ensures IsLTrimmed(text, a) && IsLTrimmed(text, b) ==> a == b
  {
    if IsLTrimmed(text, a) && IsLTrimmed(text, b) {
      assert a != "" ==> a[0] == text[|text| - |a|];
      assert b != "" ==> b[0] == text[|text| - |b|];
    }
  }

  lemma CutsOneWay(remaining: string, limit: nat, part: string, rest: string, part': string, rest': string)
    requires CutsInto(remaining, limit, part, rest) && CutsInto(remaining, limit, part', rest')
    ensures part == part' && rest == rest'
  {
    var cut: nat :| CutsAt(remaining, limit, part, rest, cut);
    var cut': nat :| CutsAt(remaining, limit, part', rest', cut');
    OneCut(remaining[..limit], cut, cut');
    TrimmedOnce(remaining[..cut], part, part');
    TrimmedOnce(remaining[cut..], rest, rest');
  }

  lemma {:induction false} SameCuts(text: string, limit: nat, a: seq<string>, as_: seq<string>, b: seq<string>, bs: seq<string>, n: nat)
    requires CutsTo(text, limit, a, as_) && CutsTo(text, limit, b, bs) && n <= |a| && n <= |b|
    ensures a[..n] == b[..n] && as_[n] == bs[n]
  {
    if n > 0 {
      SameCuts(text, limit, a, as_, b, bs, n - 1);
      assert IsCutOff(limit, a, as_, n - 1) && IsCutOff(limit, b, bs, n - 1);
      CutsOneWay(as_[n - 1], limit, a[n - 1], as_[n], b[n - 1], bs[n]);
      assert a[..n] == a[..n - 1] + [a[n - 1]] && b[..n] == b[..n - 1] + [b[n - 1]];
    }
  }

  lemma LongBefore(text: string, limit: nat, parts: seq<string>, rests: seq<string>, n: nat)
    requires CutsTo(text, limit, parts, rests)
    ensures n < |parts| ==> |rests[n]| > limit
  {
    assert n < |parts| ==> IsCutOff(limit, parts, rests, n);
  }

  /** There is one way for a text to come apart. */
  lemma ChunkedOneWay(text: string, limit: nat, a: seq<string>, b: seq<string>)
    requires IsChunked(text, limit, a) && IsChunked(text, limit, b)
    ensures a == b
  {
    if |text| > limit {
      var cuts, rests :| ChunkedBy(text, limit, a, cuts, rests);
      var cuts', rests' :| ChunkedBy(text, limit, b, cuts', rests');
      SameCuts(text, limit, cuts, rests, cuts', rests', Min(|cuts|, |cuts'|));
      LongBefore(text, limit, cuts, rests, Min(|cuts|, |cuts'|));
      LongBefore(text, limit, cuts', rests', Min(|cuts|, |cuts'|));
    }
  }

  /** With no limit to speak of there is no progress: a part of no characters is cut off
      and everything remains. */
  lemma ZeroLimitStands(remaining: string)
    requires remaining != "" && remaining[0] != '\n'
    ensures IsCut(remaining[..0], 0) && LStripped(remaining[0..]) == remaining
  {
    assert remaining[0..] == remaining;
  }
}
