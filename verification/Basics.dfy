/** Types and sequence helpers shared by every model. */
module Basics {

  datatype Option<+T> = None | Some(value: T) {
    function GetOr(default: T): T
    {
      if Some? then value else default
    }
  }

  /** Instants and durations, in nanoseconds. Instants count from the year 1,
      the zero value of Go's time.Time. */
  type Time = int

  const ZERO_TIME: Time := 0
  const SECOND: Time := 1_000_000_000

  const TWO_63: int := 0x8000_0000_0000_0000
  const TWO_64: int := 0x1_0000_0000_0000_0000

  type int64 = x: int | -TWO_63 <= x < TWO_63
  type uint64 = x: int | 0 <= x < TWO_64

  /** Go's conversion of an int64 to uint64. */
  function Uint64(c: int64): uint64
  {
    if c >= 0 then c else c + TWO_64
  }

  /** Go's conversion to int64 of the difference of two uint64. */
  function Int64Diff(a: uint64, b: uint64): int64
  {
    var x := a - b;
    if x >= TWO_63 then x - TWO_64 else if x < -TWO_63 then x + TWO_64 else x
  }

  /** Go's wrapping subtraction on int64. */
  function Int64Sub(a: int64, b: int64): int64
  {
    var x := a - b;
    if x >= TWO_63 then x - TWO_64 else if x < -TWO_63 then x + TWO_64 else x
  }

  /** The conversions change nothing but whole turns of 64 bits. */
  lemma ConversionsWrap(a: uint64, b: uint64, c: int64, d: int64)
    ensures Uint64(c) == c as int || Uint64(c) == c as int + 0x1_0000_0000_0000_0000
    ensures exists turns: int :: Int64Diff(a, b) == a as int - b as int + turns * 0x1_0000_0000_0000_0000
    ensures exists turns: int :: Int64Sub(c, d) == c as int - d as int + turns * 0x1_0000_0000_0000_0000
  {
    var x, y := a as int - b as int, c as int - d as int;
    assert Int64Diff(a, b) == x + 0 * 0x1_0000_0000_0000_0000 || Int64Diff(a, b) == x + 1 * 0x1_0000_0000_0000_0000
        || Int64Diff(a, b) == x + (-1) * 0x1_0000_0000_0000_0000;
    assert Int64Sub(c, d) == y + 0 * 0x1_0000_0000_0000_0000 || Int64Sub(c, d) == y + 1 * 0x1_0000_0000_0000_0000
        || Int64Sub(c, d) == y + (-1) * 0x1_0000_0000_0000_0000;
  }

  /** One label of a series, and a label set in its canonical order. */
  datatype Label = Label(name: string, value: string)
  type Labels = seq<Label>

  /** A label hash. */
  type Hash = nat

  function Max(a: int, b: int): (m: int)
  {
    if a < b then b else a
  }

  function Flatten<T>(ss: seq<seq<T>>): seq<T>
  {
    if ss == [] then [] else Flatten(ss[..|ss| - 1]) + ss[|ss| - 1]
  }

  /** Flatten, one element longer on the right. */
  lemma FlattenSnoc<T>(ss: seq<seq<T>>, s: seq<T>)
    ensures Flatten(ss + [s]) == Flatten(ss) + s
  {
    assert (ss + [s])[..|ss + [s]| - 1] == ss;
  }
}
