/** Small value types shared by the other modules. */
module Common {

  datatype Option<+T> = None | Some(value: T)

  function MinReal(a: real, b: real): real { if a <= b then a else b }

  function MaxReal(a: real, b: real): real { if a >= b then a else b }

  function AbsReal(a: real): real { if a >= 0.0 then a else -a }

  /** numpy.clip for scalars, for lo <= hi. */
  function Clip(value: real, lo: real, hi: real): real {
    MinReal(MaxReal(value, lo), hi)
  }

  /** What a log bounded to `count` entries still shows of its history. */
  function Latest<T>(history: seq<T>, count: nat): seq<T> {
    if |history| <= count then history else history[|history| - count..]
  }

  /** Appending to the bounded log and trimming it again is bounding the longer history. */
  lemma LatestAppended<T>(history: seq<T>, entry: T, count: nat)
    requires count > 0
    ensures Latest(history + [entry], count) == Latest(Latest(history, count) + [entry], count)
  {
  }
}
