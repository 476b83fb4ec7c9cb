/** The parts of JavaScript's String.prototype used by the frontend, for integer arguments. */
module JsString {

  /** How `slice` resolves one index: a negative index counts back from the end,
      and the result is clamped to [0, len]. */
  function ResolveIndex(i: int, len: nat): (r: nat)
    ensures r <= len
    ensures 0 <= i <= len ==> r == i
    ensures i < 0 && len + i >= 0 ==> r == len + i
    ensures i > len ==> r == len
    ensures i < 0 && len + i < 0 ==> r == 0
  {
    if i < 0 then (if len + i < 0 then 0 else len + i)
    else if i > len then len
    else i
  }

  /** `s.slice(start, end)`: empty when the resolved start is not before the resolved end. */
  function Slice(s: string, start: int, end: int): (r: string)
    ensures |r| <= |s|
    ensures var a, b := ResolveIndex(start, |s|), ResolveIndex(end, |s|);
            |r| == if a < b then b - a else 0
    ensures forall k :: 0 <= k < |r| ==> r[k] == s[ResolveIndex(start, |s|) + k]
  {
    var a, b := ResolveIndex(start, |s|), ResolveIndex(end, |s|);
    if a < b then s[a..b] else ""
  }

  /** `s.slice(start)`: the suffix from the resolved start. */
  function SliceFrom(s: string, start: int): (r: string)
    ensures |r| <= |s|
    ensures r == s[ResolveIndex(start, |s|)..]
  {
    Slice(s, start, |s|)
  }

  function Repeat(c: char, n: nat): (r: string)
    ensures |r| == n
    ensures forall i :: 0 <= i < n ==> r[i] == c
  {
    if n == 0 then "" else [c] + Repeat(c, n - 1)
  }

  /** `s.padStart(width, [fill])` with a one-character filler. */
  function PadStart(s: string, width: nat, fill: char): (r: string)
    ensures |r| == if |s| >= width then |s| else width
    ensures r[|r| - |s|..] == s
    ensures forall i :: 0 <= i < |r| - |s| ==> r[i] == fill
  {
    if |s| >= width then s else Repeat(fill, width - |s|) + s
  }
}
