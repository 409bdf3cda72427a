/** Small helpers shared by every module: options, sequence predicates, ranges. */
module Base {

  datatype Option<+T> = None | Some(value: T)

  function Min(a: int, b: int): int {
    if a <= b then a else b
  }

  function Max(a: int, b: int): int {
    if a >= b then a else b
  }

  ghost predicate NoDup<T(!new)>(s: seq<T>) {
    forall i, j :: 0 <= i < j < |s| ==> s[i] != s[j]
  }

  /** The integers `lo, lo + 1, ..., hi - 1`. */
  function Range(lo: nat, hi: nat): (r: seq<nat>)
    requires lo <= hi
    ensures |r| == hi - lo
    ensures forall i :: 0 <= i < |r| ==> r[i] == lo + i
  {
    seq(hi - lo, i requires 0 <= i => lo + i)
  }

  lemma Associative<T>(a: seq<T>, b: seq<T>, c: seq<T>)
    ensures a + (b + c) == a + b + c
  {
  }

  lemma FrontAndLast<T>(s: seq<T>)
    requires s != []
    ensures s[..|s| - 1] + [s[|s| - 1]] == s
  {
  }

  function Elements<T>(s: seq<T>): set<T> {
    set x | x in s
  }

  /** What Python's `str.isspace` holds of: the characters `strip` takes off an end. */
  predicate IsSpace(c: char) {
    var n := c as int;
    || 9 <= n <= 13 || 28 <= n <= 32 || n == 0x85 || n == 0xa0 || n == 0x1680
    || 0x2000 <= n <= 0x200a || n == 0x2028 || n == 0x2029 || n == 0x202f || n == 0x205f
    || n == 0x3000
  }

  /** The code points of white space, one by one. */
  const SPACES: set<int> := {
    0x9, 0xa, 0xb, 0xc, 0xd, 0x1c, 0x1d, 0x1e, 0x1f, 0x20, 0x85, 0xa0, 0x1680,
    0x2000, 0x2001, 0x2002, 0x2003, 0x2004, 0x2005, 0x2006, 0x2007, 0x2008, 0x2009, 0x200a,
    0x2028, 0x2029, 0x202f, 0x205f, 0x3000}

  /** Line ends, tabs and spaces of all kinds are white space, and nothing else is. */
  lemma SpacesAre(c: char)
    ensures IsSpace(c) <==> c as int in SPACES
    ensures IsSpace(' ') && IsSpace('\t') && IsSpace('\n') && IsSpace('\r')
    ensures '!' <= c <= '~' ==> !IsSpace(c)
  {
  }

  /** `rstrip()`: without the white space it ends in. */
  function RStripped(text: string): (r: string)
    ensures |r| <= |text|
  {
    if text == "" || !IsSpace(text[|text| - 1]) then text else RStripped(text[..|text| - 1])
  }

  /** Only white space is taken, and all of it there is at the end. */
  lemma {:induction false} RStrippedIs(text: string)
    ensures var r := RStripped(text);
            && r == text[..|r|] && (forall i :: |r| <= i < |text| ==> IsSpace(text[i]))
            && (r == "" || !IsSpace(r[|r| - 1]))
  {
    if text != "" && IsSpace(text[|text| - 1]) {
      RStrippedIs(text[..|text| - 1]);
    }
  }

  predicate IsBlank(s: string) {
    forall i :: 0 <= i < |s| ==> IsSpace(s[i])
  }
}
