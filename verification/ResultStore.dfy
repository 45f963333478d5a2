/**
 The byte budget of uav_agent/experiments/fleet_result_recorder.py: appends and
 replacements under three caps with a reserve that only the summary may use, and
 the summary that embeds the size of the directory it is itself part of.
 Encoded sizes are naturals.
 */
module ResultStore {
  import opened Common

  // ------------------------------------------------------- decimal digits

  function Digits(n: nat): (d: nat)
    ensures d >= 1
  {
    if n < 10 then 1 else Digits(n / 10) + 1
  }

  function PowerOfTen(k: nat): (p: nat)
    ensures p >= 1
  {
    if k == 0 then 1 else 10 * PowerOfTen(k - 1)
  }

  lemma {:induction false} DigitsBelow(n: nat, k: nat)
    requires k >= 1
    ensures Digits(n) <= k <==> n < PowerOfTen(k)
  {
    if n >= 10 && k > 1 {
      DigitsBelow(n / 10, k - 1);
    } else if k > 1 {
      PowersGrow(k);
    }
  }

  lemma {:induction false} PowersGrow(k: nat)
    ensures PowerOfTen(k) >= 9 * k + 1
  {
    if k > 0 {
      PowersGrow(k - 1);
    }
  }

  lemma DigitsOrder(m: nat, n: nat)
    requires m <= n
    ensures Digits(m) <= Digits(n)
  {
    DigitsBelow(n, Digits(n));
    DigitsBelow(m, Digits(n));
  }

  /** The size of a file whose text contains its own directory's size n: k bytes and the digits of n. */
  function Rendered(k: nat, n: nat): nat { k + Digits(n) }

  function Iterate(k: nat, n: nat, times: nat): nat {
    if times == 0 then n else Rendered(k, Iterate(k, n, times - 1))
  }

  /** Three digit counts along the iteration from a directory of n bytes. */
  predicate Chain(k: nat, d0: nat, d1: nat, d2: nat, d3: nat) {
    d1 == Digits(k + d0) && d2 == Digits(k + d1) && d3 == Digits(k + d2)
  }

  /** If the digit count does not fall, it rises at most once. */
  lemma GrowingSettles(k: nat, d0: nat, d1: nat, d2: nat, d3: nat)
    requires Chain(k, d0, d1, d2, d3) && d0 <= d1
    ensures d3 == d2
  {
    DigitsOrder(k + d0, k + d1);
    DigitsOrder(k + d1, k + d2);
    if d2 > d1 {
      DigitsBelow(k + d0, d1);
      PowersGrow(d1);
      DigitsBelow(k + d1, d1 + 1);
      DigitsBelow(k + d2, d1 + 1);
    }
  }

  /** If it falls, it falls at most twice, unless the directory was far larger than what is left. */
  lemma ShrinkingSettles(k: nat, n: nat, d0: nat, d1: nat, d2: nat, d3: nat)
    requires Chain(k, d0, d1, d2, d3) && d0 == Digits(n) && d0 > d1 && n <= k + 32768
    ensures d3 == d2
  {
    DigitsOrder(k + d1, k + d0);
    if d2 < d1 {
      DigitsOrder(k + d2, k + d1);
      if k >= 32768 {
        LargeShrink(k, n, d0, d1, d2);
      } else {
        SmallDigits(n);
        SmallDigits(k + d0);
        SmallDigits(k + d1);
        SmallDigits(k + d2);
        SmallShrink(k, n, d0, d1, d2, d3);
      }
    }
  }

  /** The digits of a large rest can fall only once. */
  lemma LargeShrink(k: nat, n: nat, d0: nat, d1: nat, d2: nat)
    requires k >= 32768 && n <= k + 32768 && d0 == Digits(n) && d1 == Digits(k + d0) && d2 == Digits(k + d1) && d0 > d1
    ensures d2 >= d1
  {
    DigitsOrder(k, k + d1);
    LargeDigits(n, k);
  }

  lemma LargeDigits(n: nat, k: nat)
    requires n <= k + 32768 && k >= 32768
    ensures Digits(n) <= Digits(k) + 1
  {
    var d := Digits(k);
    DigitsBelow(k, d);
    DigitsBelow(n, d + 1);
  }

  /** The digit count of a number, as far as five digits go. */
  predicate Counted(n: nat, d: nat) {
    && d >= 1 && (n < 10 <==> d == 1) && (n < 100 <==> d <= 2) && (n < 1000 <==> d <= 3)
    && (n < 10000 <==> d <= 4) && (n < 100000 <==> d <= 5)
  }

  lemma SmallDigits(n: nat)
    ensures Counted(n, Digits(n))
  {
    assert PowerOfTen(1) == 10 && PowerOfTen(2) == 100 && PowerOfTen(3) == 1000;
    assert PowerOfTen(4) == 10000 && PowerOfTen(5) == 100000;
    DigitsBelow(n, 1);
    DigitsBelow(n, 2);
    DigitsBelow(n, 3);
    DigitsBelow(n, 4);
    DigitsBelow(n, 5);
  }

  lemma SmallShrink(k: nat, n: nat, d0: nat, d1: nat, d2: nat, d3: nat)
    requires k < 32768 && n <= k + 32768 && d0 > d1 > d2 >= d3
    requires Counted(n, d0) && Counted(k + d0, d1) && Counted(k + d1, d2) && Counted(k + d2, d3)
    ensures d3 == d2
  {
  }

  /** From any directory whose size has at most 32768 digits, four renderings reach a fixpoint. */
  lemma FixpointReached(k: nat, n: nat)
    requires Digits(n) <= 32768
    ensures Iterate(k, n, 5) == Iterate(k, n, 4)
  {
    assert Iterate(k, n, 0) == n;
    var x1 := Iterate(k, n, 1);
    assert x1 == k + Digits(n);
    var d0 := Digits(x1);
    var d1 := Digits(k + d0);
    var d2 := Digits(k + d1);
    var d3 := Digits(k + d2);
    if d0 <= d1 {
      GrowingSettles(k, d0, d1, d2, d3);
    } else {
      ShrinkingSettles(k, x1, d0, d1, d2, d3);
    }
    assert Iterate(k, n, 2) == k + d0;
    assert Iterate(k, n, 3) == k + d1;
    assert Iterate(k, n, 4) == k + d2;
    assert Iterate(k, n, 5) == k + d3;
  }

  lemma TwoMore(k: nat, n: nat, m: nat)
    ensures Iterate(k, n, m + 1) == Rendered(k, Iterate(k, n, m))
    ensures Iterate(k, n, m + 2) == Rendered(k, Iterate(k, n, m + 1))
  {
  }

  lemma LastPass(k: nat, n: nat, m: nat, x: nat, y: nat)
    requires Digits(n) <= 32768 && m == 6 && x == Iterate(k, n, m - 1) && y == Iterate(k, n, m)
    ensures x == y
  {
    FixpointReached(k, n);
  }

  /** One pass is not enough: the size it embeds can have one digit fewer than the size it makes. */
  lemma OnePassFallsShort()
    ensures Rendered(8, 0) == 9 && Rendered(8, Rendered(8, 0)) == 9
    ensures Rendered(9, 0) == 10 && Rendered(9, Rendered(9, 0)) == 11
  {
  }

  // ------------------------------------------------------------- the files

  datatype File = File(name: nat, size: nat)

  const SUMMARY: nat := 0     // summary.json
  const SUMMARY_RESERVE: nat := 32768

  function Total(files: seq<File>): nat {
    if files == [] then 0 else files[0].size + Total(files[1..])
  }

  function SizeOf(files: seq<File>, name: nat): nat {
    if files == [] then 0 else if files[0].name == name then files[0].size else SizeOf(files[1..], name)
  }

  predicate Exists(files: seq<File>, name: nat) {
    files != [] && (files[0].name == name || Exists(files[1..], name))
  }

  /** The directory with the file's size set, created if need be. */
  function WithSize(files: seq<File>, name: nat, size: nat): (r: seq<File>)
    ensures Total(r) == Total(files) - SizeOf(files, name) + size
    ensures SizeOf(r, name) == size && Exists(r, name)
    ensures SizeOf(files, name) <= Total(files)
  {
    if files == [] then [File(name, size)]
    else if files[0].name == name then [File(name, size)] + files[1..]
    else [files[0]] + WithSize(files[1..], name, size)
  }

  lemma {:induction false} SizeWithinTotal(files: seq<File>, name: nat)
    ensures SizeOf(files, name) <= Total(files)
  {
    if files != [] {
      SizeWithinTotal(files[1..], name);
    }
  }

  /** At most this one file has changed, or has been added. */
  predicate Only(name: nat, before: seq<File>, after: seq<File>) {
    if before == [] then after == [] || (|after| == 1 && after[0].name == name)
    else
      && after != [] && after[0].name == before[0].name
      && if before[0].name == name then after[1..] == before[1..]
         else after[0] == before[0] && Only(name, before[1..], after[1..])
  }

  lemma {:induction false} OnlyTwice(name: nat, a: seq<File>, b: seq<File>, c: seq<File>)
    requires Only(name, a, b) && Only(name, b, c)
    ensures Only(name, a, c)
  {
    if a != [] && a[0].name != name {
      OnlyTwice(name, a[1..], b[1..], c[1..]);
    }
  }

  /** Every other file keeps its size. */
  lemma {:induction false} OnlyMeans(name: nat, before: seq<File>, after: seq<File>, other: nat)
    requires Only(name, before, after) && other != name
    ensures SizeOf(after, other) == SizeOf(before, other)
  {
    if before != [] && before[0].name != name {
      OnlyMeans(name, before[1..], after[1..], other);
    }
  }

  /** Setting a file's size changes no other file. */
  lemma {:induction false} OnlySized(files: seq<File>, name: nat, size: nat)
    ensures Only(name, files, WithSize(files, name, size))
  {
    if files != [] && files[0].name != name {
      OnlySized(files[1..], name, size);
    }
  }

  lemma {:induction false} OnlySame(files: seq<File>, name: nat)
    ensures Only(name, files, files)
  {
    if files != [] {
      OnlySame(files[1..], name);
    }
  }

  class BoundedResultStore {
    const maxRecord: nat
    const maxStream: nat
    const maxRun: nat
    const reserve: nat
    var files: seq<File>
    var dropped: map<nat, nat>
    var truncated: set<nat>

    /** The reserve is a third of the run's limit, at least one byte and at most SUMMARY_RESERVE. */
    ghost predicate Configured() {
      && 0 < maxRecord <= maxStream <= maxRun
      && if maxRun < 3 then reserve == 1
         else if maxRun < 3 * SUMMARY_RESERVE then 3 * reserve <= maxRun < 3 * reserve + 3
         else reserve == SUMMARY_RESERVE
    }

    function RunBytes(): nat
      reads this
    {
      Total(files)
    }

    function OtherBytes(): nat
      reads this
    {
      SizeWithinTotal(files, SUMMARY);
      Total(files) - SizeOf(files, SUMMARY)
    }

    /** Whatever else is stored, the summary's reserve is still free. */
    ghost predicate Valid()
      reads this
    {
      Configured() && OtherBytes() <= maxRun - reserve && RunBytes() <= maxRun
    }

    function DropCount(name: nat): nat
      reads this
    {
      if name in dropped then dropped[name] else 0
    }

    constructor (maxRecord: nat, maxStream: nat, maxRun: nat, existing: seq<File>)
      requires 0 < maxRecord <= maxStream <= maxRun
      ensures Configured() && this.maxRun == maxRun && files == existing && dropped == map[] && truncated == {}
      ensures this.maxRecord == maxRecord && this.maxStream == maxStream
      ensures reserve == (if maxRun / 3 < 1 then 1 else if maxRun / 3 < SUMMARY_RESERVE then maxRun / 3 else SUMMARY_RESERVE)
    {
      this.maxRecord, this.maxStream, this.maxRun := maxRecord, maxStream, maxRun;
      reserve := if maxRun / 3 < 1 then 1 else if maxRun / 3 < SUMMARY_RESERVE then maxRun / 3 else SUMMARY_RESERVE;
      files, dropped, truncated := existing, map[], {};
    }

    method Drop(name: nat)
      modifies `dropped, `truncated
      ensures dropped == old(dropped)[name := old(DropCount(name)) + 1] && truncated == old(truncated) + {name}
    {
      dropped, truncated := dropped[name := DropCount(name) + 1], truncated + {name};
    }

    /** The three caps of `_can_write`. */
    predicate FitsIn(directory: seq<File>, name: nat, encoded: nat, replacing: nat) {
      && encoded <= (if name == SUMMARY then reserve else maxRecord)
      && (if replacing > 0 then encoded else SizeOf(directory, name) + encoded)
           <= (if name == SUMMARY && reserve > maxStream then reserve else maxStream)
      && Total(directory) - replacing + encoded <= maxRun - (if name == SUMMARY then 0 else reserve)
    }

    predicate Fits(name: nat, encoded: nat, replacing: nat)
      reads this
    {
      FitsIn(files, name, encoded, replacing)
    }

    method CanWrite(name: nat, encoded: nat, replacing: nat) returns (ok: bool)
      modifies `dropped, `truncated
      ensures ok <==> old(Fits(name, encoded, replacing))
      ensures name != SUMMARY ==>
        (ok <==>
           && encoded <= maxRecord && (if replacing > 0 then encoded else SizeOf(files, name) + encoded) <= maxStream
           && RunBytes() - replacing + encoded <= maxRun - reserve)
      ensures name == SUMMARY ==>
        (ok <==>
           && encoded <= reserve && RunBytes() - replacing + encoded <= maxRun
           && (replacing > 0 || SizeOf(files, name) + encoded <= if reserve > maxStream then reserve else maxStream))
      ensures ok ==> dropped == old(dropped) && truncated == old(truncated)
      ensures !ok ==> dropped == old(dropped)[name := old(DropCount(name)) + 1] && truncated == old(truncated) + {name}
    {
      ok := Fits(name, encoded, replacing);
      if !ok {
        Drop(name);
      }
    }

    /** An append: the bytes are added, or the record is counted as dropped and nothing is written. */
    method AppendJsonl(name: nat, encoded: nat) returns (ok: bool)
      requires Valid()
      modifies this
      ensures Valid()
      ensures ok <==> old(Fits(name, encoded, 0))
      ensures name != SUMMARY ==>
        (ok <==>
           && encoded <= maxRecord && old(SizeOf(files, name)) + encoded <= maxStream
           && old(RunBytes()) + encoded <= maxRun - reserve)
      ensures ok ==> files == WithSize(old(files), name, SizeOf(old(files), name) + encoded)
                     && dropped == old(dropped) && truncated == old(truncated)
      ensures !ok ==> files == old(files) && truncated == old(truncated) + {name}
                      && dropped == old(dropped)[name := old(DropCount(name)) + 1]
    {
      ok := CanWrite(name, encoded, 0);
      if ok {
        files := WithSize(files, name, SizeOf(files, name) + encoded);
      }
    }

    /** `ensure_csv`: a header already there must match; a missing one is appended. */
    method EnsureCsv(name: nat, header: nat, matches: bool) returns (r: CsvReady)
      requires Valid()
      modifies this
      ensures Valid()
      ensures old(SizeOf(files, name)) > 0 ==> r == (if matches then Ready else SchemaMismatch)
      ensures old(SizeOf(files, name)) > 0 || r != Ready ==> files == old(files)
      ensures old(SizeOf(files, name)) == 0 ==>
        r == (if old(Fits(name, header, 0)) then Ready else Refused)
        && (r == Ready ==> files == WithSize(old(files), name, header))
      ensures r != SchemaMismatch ==> Headed(old(files), name, header) == if r == Ready then Some(files) else None
      ensures r != Refused ==> dropped == old(dropped) && truncated == old(truncated)
      ensures r == Refused ==> dropped == old(dropped)[name := old(DropCount(name)) + 1]
                               && truncated == old(truncated) + {name}
    {
      if SizeOf(files, name) > 0 {
        return if matches then Ready else SchemaMismatch;
      }
      var ok := AppendJsonl(name, header);
      return if ok then Ready else Refused;
    }

    /** The directory once the stream has its header, unless the header does not fit. */
    function Headed(directory: seq<File>, name: nat, header: nat): Option<seq<File>> {
      if SizeOf(directory, name) > 0 then Some(directory)
      else if FitsIn(directory, name, header, 0) then Some(WithSize(directory, name, header))
      else None
    }

    /** The directory after one write, refused or not. */
    function Stored(directory: seq<File>, w: Write): seq<File> {
      match w
      case Jsonl(name, size) =>
        if FitsIn(directory, name, size, 0) then WithSize(directory, name, SizeOf(directory, name) + size) else directory
      case Json(name, size) =>
        if FitsIn(directory, name, size, SizeOf(directory, name)) then WithSize(directory, name, size) else directory
      case Csv(name, header, matches, row) =>
        var headed := Headed(directory, name, header);
        if headed.None? || (SizeOf(directory, name) > 0 && !matches) then directory
        else if !FitsIn(headed.value, name, row, 0) then headed.value
        else WithSize(headed.value, name, SizeOf(headed.value, name) + row)
    }

    function StoredAll(directory: seq<File>, writes: seq<Write>, n: nat): seq<File>
      requires n <= |writes|
    {
      if n == 0 then directory else Stored(StoredAll(directory, writes, n - 1), writes[n - 1])
    }

    /** `append_csv`: a row refused together with its header is counted as two drops. */
    method AppendCsv(name: nat, header: nat, matches: bool, row: nat) returns (r: CsvAppend)
      requires Valid() && header > 0
      modifies this
      ensures Valid()
      ensures r == Raised <==> old(SizeOf(files, name)) > 0 && !matches
      ensures r != Raised ==>
        var headed := Headed(old(files), name, header);
        && (r == Appended <==> headed.Some? && FitsIn(headed.value, name, row, 0))
        && files == (if headed.None? then old(files)
                     else if r == Dropped then headed.value
                     else WithSize(headed.value, name, SizeOf(headed.value, name) + row))
      ensures truncated == if r == Dropped then old(truncated) + {name} else old(truncated)
      ensures r == Appended ==>
        && dropped == old(dropped)
        && SizeOf(files, name) == (if old(SizeOf(files, name)) > 0 then old(SizeOf(files, name)) else header) + row
        && Only(name, old(files), files)
      ensures r == Dropped ==>
        dropped == old(dropped)[name := old(DropCount(name)) +
          if old(SizeOf(files, name) == 0 && !Fits(name, header, 0)) then 2 else 1]
      ensures r == Raised ==> files == old(files) && dropped == old(dropped)
    {
      r := AppendRow(name, header, matches, row);
      OnlySame(old(files), name);
      OnlySized(old(files), name, header);
      var headed := Headed(old(files), name, header);
      if r == Appended {
        OnlySized(headed.value, name, SizeOf(headed.value, name) + row);
        OnlyTwice(name, old(files), headed.value, files);
      }
    }

    /** The header first, then the row. */
    method AppendRow(name: nat, header: nat, matches: bool, row: nat) returns (r: CsvAppend)
      requires Valid() && header > 0
      modifies this
      ensures Valid()
      ensures r == Raised <==> old(SizeOf(files, name)) > 0 && !matches
      ensures r == Raised ==> files == old(files)
      ensures r != Raised ==>
        var headed := Headed(old(files), name, header);
        && (r == Appended <==> headed.Some? && FitsIn(headed.value, name, row, 0))
        && files == (if headed.None? then old(files)
                     else if r == Dropped then headed.value
                     else WithSize(headed.value, name, SizeOf(headed.value, name) + row))
      ensures dropped == if r != Dropped then old(dropped)
        else old(dropped)[name := old(DropCount(name)) + if Headed(old(files), name, header).None? then 2 else 1]
      ensures truncated == if r == Dropped then old(truncated) + {name} else old(truncated)
    {
      var ready := EnsureCsv(name, header, matches);
      if ready == SchemaMismatch {
        return Raised;
      }
      if ready == Refused {
        Drop(name);
        return Dropped;
      }
      var ok := AppendJsonl(name, row);
      return if ok then Appended else Dropped;
    }

    /** `write_json`: an atomic replacement.  A summary within its reserve is never refused. */
    method WriteJson(name: nat, encoded: nat) returns (ok: bool)
      requires Valid()
      modifies this
      ensures Valid()
      ensures ok <==> old(Fits(name, encoded, SizeOf(files, name)))
      ensures name != SUMMARY ==>
        (ok <==>
           && encoded <= maxRecord && encoded <= maxStream
           && old(RunBytes()) - old(SizeOf(files, name)) + encoded <= maxRun - reserve)
      ensures name == SUMMARY ==> (ok <==> encoded <= reserve)
      ensures name == SUMMARY && encoded <= reserve ==> ok
      ensures name == SUMMARY ==> OtherBytes() == old(OtherBytes())
      ensures ok ==> files == WithSize(old(files), name, encoded) && dropped == old(dropped)
                     && truncated == old(truncated) && SizeOf(files, name) == encoded
      ensures !ok ==> files == old(files) && dropped == old(dropped)[name := old(DropCount(name)) + 1]
                      && truncated == old(truncated) + {name}
    {
      ok := CanWrite(name, encoded, SizeOf(files, name));
      if ok {
        files := WithSize(files, name, encoded);
      }
    }

    /** One pass of `finalize`: measure, render, embed the projected size, replace the summary. */
    method SummaryPass(base: nat) returns (projected: nat, ok: bool)
      requires Valid()
      modifies this
      ensures Valid() && OtherBytes() == old(OtherBytes())
      ensures projected == Rendered(OtherBytes() + base, old(RunBytes()))
      ensures ok ==> RunBytes() == Rendered(OtherBytes() + base, projected)
      ensures files == if ok then WithSize(old(files), SUMMARY, base + Digits(projected)) else old(files)
      ensures Only(SUMMARY, old(files), files) && (ok ==> SizeOf(files, SUMMARY) == base + Digits(projected))
      ensures ok <==> base + Digits(projected) <= reserve
      ensures base + Digits(maxRun) <= reserve ==> ok
    {
      projected := RunBytes() - SizeOf(files, SUMMARY) + base + Digits(RunBytes());
      if base + Digits(maxRun) <= reserve {
        DigitsOrder(RunBytes(), maxRun);
        DigitsOrder(projected, maxRun);
      }
      ok := WriteJson(SUMMARY, base + Digits(projected));
      OnlySized(old(files), SUMMARY, base + Digits(projected));
      OnlySame(old(files), SUMMARY);
    }

    /** Three passes over the full summary; `ok` is false as soon as one is refused. */
    method WriteFull(base: nat) returns (embedded: nat, ok: bool)
      requires Valid() && Digits(maxRun) <= 32768
      modifies this
      ensures Valid() && OtherBytes() == old(OtherBytes())
      ensures ok ==> embedded == RunBytes() && SizeOf(files, SUMMARY) == base + Digits(embedded)
      ensures Only(SUMMARY, old(files), files)
      ensures base + Digits(maxRun) <= reserve ==> ok
    {
      ghost var k, start := OtherBytes() + base, RunBytes();
      DigitsOrder(start, maxRun);
      ghost var m := 0;
      embedded, ok := 0, true;
      OnlySame(files, SUMMARY);
      for i := 0 to 3
        invariant Valid() && OtherBytes() + base == k && ok
        invariant m == 2 * i && RunBytes() == Iterate(k, start, m)
        invariant i > 0 ==> embedded == Iterate(k, start, m - 1)
        invariant i > 0 ==> SizeOf(files, SUMMARY) == base + Digits(embedded)
        invariant Only(SUMMARY, old(files), files)
      {
        ghost var before := files;
        embedded, ok := SummaryPass(base);
        TwoMore(k, start, m);
        OnlyTwice(SUMMARY, old(files), before, files);
        if !ok {
          return;
        }
        m := m + 2;
      }
      LastPass(k, start, m, embedded, RunBytes());
    }

    /** The compact fallback: at most three passes, stopping when the embedded size is right. */
    method WriteCompact(base: nat) returns (embedded: nat, ok: bool)
      requires Valid() && Digits(maxRun) <= 32768
      modifies this
      ensures Valid() && OtherBytes() == old(OtherBytes())
      ensures ok ==> embedded == RunBytes() && SizeOf(files, SUMMARY) == base + Digits(embedded)
      ensures Only(SUMMARY, old(files), files)
      ensures base + Digits(maxRun) <= reserve ==> ok
    {
      ghost var k, start := OtherBytes() + base, RunBytes();
      DigitsOrder(start, maxRun);
      ghost var m := 0;
      embedded, ok := 0, true;
      OnlySame(files, SUMMARY);
      for i := 0 to 3
        invariant Valid() && OtherBytes() + base == k && ok
        invariant m == 2 * i && RunBytes() == Iterate(k, start, m)
        invariant i > 0 ==> embedded == Iterate(k, start, m - 1)
        invariant i > 0 ==> SizeOf(files, SUMMARY) == base + Digits(embedded)
        invariant Only(SUMMARY, old(files), files)
      {
        ghost var before := files;
        embedded, ok := SummaryPass(base);
        TwoMore(k, start, m);
        OnlyTwice(SUMMARY, old(files), before, files);
        if !ok || embedded == RunBytes() {
          return;
        }
        m := m + 2;
      }
      LastPass(k, start, m, embedded, RunBytes());
    }

    /**
     The end of `finalize`.  Whenever the last summary is written, the size it
     embeds is the size of the directory it is in; and if the compact summary
     fits its reserve, one always is.
     */
    method Finalize(base: nat, compactBase: nat) returns (embedded: nat, written: bool)
      requires Valid() && Digits(maxRun) <= 32768
      modifies this
      ensures Valid() && OtherBytes() == old(OtherBytes())
      ensures written ==> embedded == RunBytes()
      ensures written ==> SizeOf(files, SUMMARY) == base + Digits(embedded)
                          || SizeOf(files, SUMMARY) == compactBase + Digits(embedded)
      ensures base + Digits(maxRun) <= reserve ==> written && SizeOf(files, SUMMARY) == base + Digits(embedded)
      ensures Only(SUMMARY, old(files), files)
      ensures compactBase + Digits(maxRun) <= reserve ==> written
    {
      embedded, written := WriteFull(base);
      if !written {
        ghost var before := files;
        embedded, written := WriteCompact(compactBase);
        OnlyTwice(SUMMARY, old(files), before, files);
      }
    }
  }

  datatype CsvReady = Ready | Refused | SchemaMismatch

  datatype CsvAppend = Appended | Dropped | Raised

  datatype Write = Csv(name: nat, header: nat, matches: bool, row: nat) | Jsonl(name: nat, size: nat) | Json(name: nat, size: nat)

  method StoreOne(store: BoundedResultStore, w: Write)
    requires store.Valid() && (w.Csv? ==> w.header > 0)
    modifies store
    ensures store.Valid() && store.files == store.Stored(old(store.files), w)
  {
    match w
    case Csv(name, header, matches, row) =>
      var r := store.AppendCsv(name, header, matches, row);
    case Jsonl(name, size) =>
      var r := store.AppendJsonl(name, size);
    case Json(name, size) =>
      var r := store.WriteJson(name, size);
  }

  /** Whatever is written, dropped or refused, a summary of at most the reserve can still be stored. */
  method EveryRunCanBeSummarised(store: BoundedResultStore, writes: seq<Write>, summary: nat) returns (ok: bool)
    requires store.Valid() && summary <= store.reserve
    requires forall i | 0 <= i < |writes| && writes[i].Csv? :: writes[i].header > 0
    modifies store
    ensures store.Valid() && ok && SizeOf(store.files, SUMMARY) == summary && store.RunBytes() <= store.maxRun
    ensures store.files == WithSize(store.StoredAll(old(store.files), writes, |writes|), SUMMARY, summary)
  {
    for i := 0 to |writes|
      invariant store.Valid() && store.files == store.StoredAll(old(store.files), writes, i)
    {
      StoreOne(store, writes[i]);
    }
    ok := store.WriteJson(SUMMARY, summary);
  }
}
