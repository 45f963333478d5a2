/**
 The bounded cache of terminal candidate reviews in
 uav_agent/agents/visual_review_coordinator.py: mismatch streaks, first-seen
 epochs, reference handles and least-recently-updated eviction.
 */
module ReviewCache {
  import opened Common

  type Id = nat

  datatype Verdict = TargetMatch | TargetMismatch | Inconclusive

  datatype Review = Review(verdict: Verdict, observed: real)

  /** What the candidate bank says; a dead candidate is REJECTED or STALE. */
  datatype Candidate = Candidate(firstSeen: real, dead: bool)

  // ------------------------------------------- insertion-ordered dictionaries

  function KeySet(keys: seq<Id>): set<Id> {
    if keys == [] then {} else KeySet(keys[..|keys| - 1]) + {keys[|keys| - 1]}
  }

  predicate Distinct(keys: seq<Id>) {
    keys == [] || (keys[|keys| - 1] !in KeySet(keys[..|keys| - 1]) && Distinct(keys[..|keys| - 1]))
  }

  function Removed(keys: seq<Id>, k: Id): (rest: seq<Id>)
    requires k in KeySet(keys) && Distinct(keys)
    ensures KeySet(rest) == KeySet(keys) - {k} && Distinct(rest) && |rest| == |keys| - 1
  {
    var init, last := keys[..|keys| - 1], keys[|keys| - 1];
    if last == k then init else
      var rest := Removed(init, k);
      assert (rest + [last])[..|rest|] == rest;
      rest + [last]
  }

  /** A Python dict: `keys` is the insertion order. */
  datatype Dict<V> = Dict(keys: seq<Id>, values: map<Id, V>) {
    predicate Valid() { Distinct(keys) && KeySet(keys) == values.Keys }

    /** `pop(k, None)`. */
    function Without(k: Id): (d: Dict<V>)
      requires Valid()
      ensures d.Valid() && d.values == values - {k} && |d.keys| <= |keys|
      ensures k in values ==> |d.keys| == |keys| - 1 && d.keys == Removed(keys, k)
      ensures k !in values ==> d == this
    {
      if k !in values then this else Dict(Removed(keys, k), values - {k})
    }

    /** Assignment to a key that is not present appends it. */
    function With(k: Id, v: V): (d: Dict<V>)
      requires Valid() && k !in values
      ensures d.Valid() && d.values == values[k := v] && d.keys == keys + [k]
    {
      assert (keys + [k])[..|keys|] == keys;
      Dict(keys + [k], values[k := v])
    }

    /** `next(iter(d))`. */
    function Oldest(): (k: Id)
      requires Valid() && keys != []
      ensures k in values
    {
      FirstIsKey(keys);
      keys[0]
    }
  }

  lemma FirstIsKey(keys: seq<Id>)
    requires keys != []
    ensures keys[0] in KeySet(keys)
  {
    if |keys| > 1 {
      FirstIsKey(keys[..|keys| - 1]);
    }
  }

  /** The time stamps of the keys increase along the insertion order, and end before `limit`. */
  predicate Ordered(keys: seq<Id>, stamp: map<Id, nat>, limit: nat) {
    if keys == [] then true
    else
      var last := keys[|keys| - 1];
      last in stamp && stamp[last] < limit && Ordered(keys[..|keys| - 1], stamp, stamp[last])
  }

  lemma {:induction false} OrderedMeans(keys: seq<Id>, stamp: map<Id, nat>, limit: nat, i: nat, j: nat)
    requires Ordered(keys, stamp, limit) && i < j < |keys|
    ensures keys[i] in stamp && keys[j] in stamp && stamp[keys[i]] < stamp[keys[j]] < limit
  {
    var init := keys[..|keys| - 1];
    if j < |keys| - 1 {
      OrderedMeans(init, stamp, stamp[keys[|keys| - 1]], i, j);
    } else if i < |init| - 1 {
      OrderedMeans(init, stamp, stamp[keys[j]], i, |init| - 1);
    }
  }

  lemma {:induction false} OrderedRelaxed(keys: seq<Id>, stamp: map<Id, nat>, limit: nat, higher: nat)
    requires Ordered(keys, stamp, limit) && limit <= higher
    ensures Ordered(keys, stamp, higher)
  {
  }

  lemma {:induction false} OrderedWithout(keys: seq<Id>, k: Id, stamp: map<Id, nat>, limit: nat)
    requires k in KeySet(keys) && Distinct(keys) && Ordered(keys, stamp, limit)
    ensures Ordered(Removed(keys, k), stamp, limit)
  {
    var init, last := keys[..|keys| - 1], keys[|keys| - 1];
    if last == k {
      OrderedRelaxed(init, stamp, stamp[last], limit);
    } else {
      OrderedWithout(init, k, stamp, stamp[last]);
      assert (Removed(init, k) + [last])[..|Removed(init, k)|] == Removed(init, k);
    }
  }

  lemma {:induction false} OrderedStamped(keys: seq<Id>, k: Id, stamp: map<Id, nat>, limit: nat, value: nat)
    requires k !in KeySet(keys) && Ordered(keys, stamp, limit)
    ensures Ordered(keys, stamp[k := value], limit)
  {
    if keys != [] {
      OrderedStamped(keys[..|keys| - 1], k, stamp, stamp[keys[|keys| - 1]], value);
    }
  }

  /** Appending a key stamped with the current time keeps the order. */
  lemma OrderedWith(keys: seq<Id>, k: Id, stamp: map<Id, nat>, now: nat)
    requires k !in KeySet(keys) && Ordered(keys, stamp, now)
    ensures Ordered(keys + [k], stamp[k := now], now + 1)
  {
    OrderedStamped(keys, k, stamp, now, now);
    assert (keys + [k])[..|keys|] == keys;
  }

  /** Taking a key out and putting it back at the end is what "least recently updated first" means. */
  lemma OrderedReinserted(d: Dict<Review>, k: Id, review: Review, stamp: map<Id, nat>, now: nat)
    requires d.Valid() && Ordered(d.keys, stamp, now)
    ensures Ordered(d.Without(k).With(k, review).keys, stamp[k := now], now + 1)
  {
    if k in d.values {
      OrderedWithout(d.keys, k, stamp, now);
    }
    OrderedWith(d.Without(k).keys, k, stamp, now);
  }

  // ------------------------------------------------------------ the history

  /** One review handed to the cache, with the candidate's epoch if it was alive. */
  datatype Given = Given(review: Review, accepted: bool, epoch: Option<real>)

  function History(given: map<Id, seq<Given>>, id: Id): seq<Given> {
    if id in given then given[id] else []
  }

  predicate MismatchIn(g: Given, epoch: real) {
    g.epoch == Some(epoch) && g.review.verdict == TargetMismatch
  }

  /** How many of the most recent reviews are mismatches of this epoch. */
  function Trailing(h: seq<Given>, epoch: real): nat {
    if h == [] || !MismatchIn(h[|h| - 1], epoch) then 0 else Trailing(h[..|h| - 1], epoch) + 1
  }

  lemma TrailingAppended(h: seq<Given>, g: Given, epoch: real)
    ensures Trailing(h + [g], epoch) == if MismatchIn(g, epoch) then Trailing(h, epoch) + 1 else 0
  {
    assert (h + [g])[..|h|] == h;
  }

  /** A trailing count of k says that each of the last k reviews is a mismatch of the epoch. */
  lemma {:induction false} TrailingMeans(h: seq<Given>, epoch: real, k: nat)
    requires Trailing(h, epoch) >= k
    ensures k <= |h| && forall i | |h| - k <= i < |h| :: MismatchIn(h[i], epoch)
  {
    if 0 < k {
      TrailingMeans(h[..|h| - 1], epoch, k - 1);
    }
  }

  /** The last review of the history is this one, and it is terminal evidence in the epoch. */
  predicate EarnedNow(review: Review, h: seq<Given>, epoch: real, threshold: nat) {
    && h != [] && h[|h| - 1].review == review && h[|h| - 1].epoch == Some(epoch)
    && match review.verdict
       case TargetMatch => h[|h| - 1].accepted
       case TargetMismatch => Trailing(h, epoch) >= threshold
       case Inconclusive => false
  }

  /** The review became terminal evidence at some point of the history. */
  predicate Earned(review: Review, h: seq<Given>, epoch: real, threshold: nat) {
    h != [] && (EarnedNow(review, h, epoch, threshold) || Earned(review, h[..|h| - 1], epoch, threshold))
  }

  lemma EarnedKept(review: Review, h: seq<Given>, g: Given, epoch: real, threshold: nat)
    requires Earned(review, h, epoch, threshold)
    ensures Earned(review, h + [g], epoch, threshold)
  {
    assert (h + [g])[..|h|] == h;
  }

  /** What a cached mismatch proves: `threshold` consecutive mismatches of the epoch, ending with it. */
  lemma {:induction false} EarnedMismatchMeans(review: Review, h: seq<Given>, epoch: real, threshold: nat) returns (at: nat)
    requires Earned(review, h, epoch, threshold) && review.verdict == TargetMismatch
    ensures threshold <= at <= |h| && at > 0 && h[at - 1].review == review
    ensures forall i | at - threshold <= i < at :: MismatchIn(h[i], epoch)
  {
    if EarnedNow(review, h, epoch, threshold) {
      at := |h|;
      TrailingMeans(h, epoch, threshold);
    } else {
      at := EarnedMismatchMeans(review, h[..|h| - 1], epoch, threshold);
      forall i | at - threshold <= i < at ensures MismatchIn(h[i], epoch) {
        assert h[i] == h[..|h| - 1][i];
      }
    }
  }

  // ---------------------------------------------- one candidate's bookkeeping

  /** Everything kept about one candidate, and the reviews it was given. */
  datatype View = View(review: Option<Review>, handles: seq<nat>, streak: Option<nat>, epoch: Option<real>,
                       history: seq<Given>)
  {
    function Blank(): View { View(None, [], None, None, history) }

    function WithoutStreak(): View { this.(streak := None) }
  }

  /** A review of a living candidate starts from nothing when the candidate's first-seen epoch has changed. */
  function EpochBase(v: View, g: Given): View {
    (if v.epoch.Some? && v.epoch != g.epoch then v.Blank() else v).(epoch := g.epoch, history := v.history + [g])
  }

  /** What `_cache_terminal_candidate_review` makes of one candidate's bookkeeping. */
  function Reviewed(v: View, g: Given, handles: seq<nat>, threshold: nat): View {
    if g.epoch.None? then v.(streak := None, history := v.history + [g])
    else
      var base := EpochBase(v, g);
      match g.review.verdict
      case TargetMismatch =>
        var streak := (if base.streak.Some? then base.streak.value else 0) + 1;
        var counted := base.(streak := Some(streak));
        if streak < threshold then counted else counted.(review := Some(g.review), handles := [])
      case TargetMatch =>
        if g.accepted then base.(streak := None, review := Some(g.review), handles := handles)
        else base.WithoutStreak()
      case Inconclusive => base.WithoutStreak()
  }

  /** Every cached item is justified by the history. */
  predicate Fine(v: View, threshold: nat) {
    && (v.epoch.None? ==> v.review.None? && v.streak.None?)
    && (v.handles != [] ==> v.review.Some? && v.review.value.verdict == TargetMatch)
    && (v.streak.Some? ==> v.epoch.Some? && 0 < v.streak.value <= Trailing(v.history, v.epoch.value))
    && (v.review.Some? ==> v.epoch.Some? && Earned(v.review.value, v.history, v.epoch.value, threshold))
  }

  lemma BaseFine(v: View, g: Given, threshold: nat)
    requires Fine(v, threshold)
    ensures Fine(v.(streak := None, history := v.history + [g]), threshold)
    ensures g.epoch.Some? ==> Fine(EpochBase(v, g).WithoutStreak(), threshold)
  {
    if v.review.Some? {
      EarnedKept(v.review.value, v.history, g, v.epoch.value, threshold);
    }
  }

  lemma StreakGrown(v: View, g: Given, threshold: nat)
    requires Fine(v, threshold) && g.epoch.Some? && g.review.verdict == TargetMismatch
    ensures var streak := (if EpochBase(v, g).streak.Some? then EpochBase(v, g).streak.value else 0) + 1;
      streak <= Trailing(v.history + [g], g.epoch.value)
  {
    TrailingAppended(v.history, g, g.epoch.value);
  }

  lemma TerminalEarned(h: seq<Given>, epoch: real, threshold: nat)
    requires h != []
    ensures EarnedNow(h[|h| - 1].review, h, epoch, threshold) ==> Earned(h[|h| - 1].review, h, epoch, threshold)
  {
  }

  lemma ReviewedFine(v: View, g: Given, handles: seq<nat>, threshold: nat)
    requires Fine(v, threshold) && threshold > 0
    ensures Fine(Reviewed(v, g, handles, threshold), threshold)
  {
    BaseFine(v, g, threshold);
    if g.epoch.Some? {
      TerminalEarned(v.history + [g], g.epoch.value, threshold);
      if g.review.verdict == TargetMismatch {
        StreakGrown(v, g, threshold);
      }
    }
  }

  /** The cached mismatch is the last word: each of the last `threshold` reviews is a mismatch of the epoch. */
  predicate Standing(v: View, threshold: nat) {
    v.review.Some? && v.review.value.verdict == TargetMismatch && v.epoch.Some? ==>
      Trailing(v.history, v.epoch.value) >= threshold
  }

  predicate HasMismatch(v: View) { v.review.Some? && v.review.value.verdict == TargetMismatch }

  /** Evidence that ends the streak but leaves the cached review: in the epoch, or of a candidate no longer alive. */
  predicate Breaks(g: Given, epoch: Option<real>) {
    g.epoch.None? || (g.epoch == epoch &&
      (g.review.verdict == Inconclusive || (g.review.verdict == TargetMatch && !g.accepted)))
  }

  /** One review: a cached mismatch stops being the last word exactly when the streak is broken. */
  lemma StandingReviewIff(v: View, g: Given, handles: seq<nat>, threshold: nat)
    requires Fine(v, threshold) && threshold > 0 && Standing(v, threshold)
    ensures Standing(Reviewed(v, g, handles, threshold), threshold) <==> !(HasMismatch(v) && Breaks(g, v.epoch))
  {
    if v.epoch.Some? {
      TrailingAppended(v.history, g, v.epoch.value);
    }
    if g.epoch.Some? && g.review.verdict == TargetMismatch {
      StreakGrown(v, g, threshold);
    }
  }

  /** A shortest run after which the cached mismatch is not the last word. */
  lemma StaleMismatchExists(epoch: real, observed: real)
    ensures var mismatch := Given(Review(TargetMismatch, observed), false, Some(epoch));
      var unsure := Given(Review(Inconclusive, observed), false, Some(epoch));
      var v := Reviewed(Reviewed(View(None, [], None, None, []), mismatch, [], 1), unsure, [], 1);
      v.review == Some(mismatch.review) && Fine(v, 1) && !Standing(v, 1)
  {
    var mismatch := Given(Review(TargetMismatch, observed), false, Some(epoch));
    var unsure := Given(Review(Inconclusive, observed), false, Some(epoch));
    var start := View(None, [], None, None, []);
    ReviewedFine(start, mismatch, [], 1);
    ReviewedFine(Reviewed(start, mismatch, [], 1), unsure, [], 1);
    TrailingAppended([mismatch], unsure, epoch);
    assert [] + [mismatch] == [mismatch];
  }

  // --------------------------------------------------------- the dictionaries

  datatype Cache = Cache(reviews: Dict<Review>, references: map<Id, seq<nat>>, streaks: Dict<nat>, epochs: map<Id, real>) {
    predicate Valid() {
      reviews.Valid() && streaks.Valid() && forall k | k in references :: references[k] != []
    }

    /** `_discard_candidate_review_cache`. */
    function Discarded(id: Id): (c: Cache)
      requires Valid()
      ensures c.Valid()
    {
      Cache(reviews.Without(id), references - {id}, streaks.Without(id), epochs - {id})
    }

    /** A review is kept that was made in the first-seen epoch of the candidate as it lives now. */
    predicate Answerable(id: Id, candidate: Option<Candidate>) {
      && id in reviews.values && candidate.Some? && !candidate.value.dead
      && Get(epochs, id) == Some(candidate.value.firstSeen)
      && reviews.values[id].observed >= candidate.value.firstSeen
    }

    /** A question that cannot be answered drops everything kept about the candidate. */
    function AnsweredFor(id: Id, candidate: Option<Candidate>): (c: Cache)
      requires Valid()
      ensures c.Valid()
    {
      if id in reviews.values && !Answerable(id, candidate) then Discarded(id) else this
    }
  }

  function Get<V>(m: map<Id, V>, k: Id): Option<V> { if k in m then Some(m[k]) else None }

  function ViewOf(c: Cache, given: map<Id, seq<Given>>, k: Id): View {
    View(Get(c.reviews.values, k), if k in c.references then c.references[k] else [],
         Get(c.streaks.values, k), Get(c.epochs, k), History(given, k))
  }

  /** Streaks may only have disappeared. */
  predicate Thinner(d: Dict<nat>, e: Dict<nat>) {
    |d.keys| <= |e.keys| && forall k | k in d.values :: k in e.values && d.values[k] == e.values[k]
  }

  /** Losing the streak, or everything, is what pruning and eviction may do to other candidates. */
  predicate Shrunk(v: View, w: View) { v == w || v == w.WithoutStreak() || v == w.Blank() }

  ghost predicate OthersShrunk(c: Cache, d: Cache, given: map<Id, seq<Given>>, id: Id) {
    forall k | k != id :: Shrunk(ViewOf(d, given, k), ViewOf(c, given, k))
  }

  lemma ShrunkFine(v: View, w: View, threshold: nat)
    requires Shrunk(v, w) && Fine(w, threshold)
    ensures Fine(v, threshold)
  {
  }

  /** The bookkeeping of the reviewed candidate changes as told; the others only shrink. */
  ghost predicate Stepped(c: Cache, before: map<Id, seq<Given>>, d: Cache, id: Id, g: Given, handles: seq<nat>,
                          threshold: nat)
  {
    var told := Reviewed(ViewOf(c, before, id), g, handles, threshold);
    var v := ViewOf(d, before[id := History(before, id) + [g]], id);
    (v == told || v == told.WithoutStreak()) && OthersShrunk(c, d, before, id)
  }

  lemma SteppedFine(c: Cache, before: map<Id, seq<Given>>, d: Cache, given: map<Id, seq<Given>>, id: Id, g: Given,
                    handles: seq<nat>, threshold: nat)
    requires threshold > 0 && forall k :: Fine(ViewOf(c, before, k), threshold)
    requires Stepped(c, before, d, id, g, handles, threshold) && given == before[id := History(before, id) + [g]]
    ensures forall k :: Fine(ViewOf(d, given, k), threshold)
  {
    ReviewedFine(ViewOf(c, before, id), g, handles, threshold);
    forall k ensures Fine(ViewOf(d, given, k), threshold) {
      if k != id {
        assert ViewOf(d, given, k) == ViewOf(d, before, k);
        ShrunkFine(ViewOf(d, before, k), ViewOf(c, before, k), threshold);
      }
    }
  }

  // ------------------------------------------------ the stages of one review

  function EpochEntered(c: Cache, id: Id, firstSeen: real): (d: Cache)
    requires c.Valid()
    ensures d.Valid() && |d.streaks.keys| <= |c.streaks.keys|
  {
    var kept := if id in c.epochs && c.epochs[id] != firstSeen then c.Discarded(id) else c;
    kept.(epochs := kept.epochs[id := firstSeen])
  }

  function WithoutStreak(c: Cache, id: Id): (d: Cache)
    requires c.Valid()
    ensures d.Valid() && |d.streaks.keys| <= |c.streaks.keys|
  {
    c.(streaks := c.streaks.Without(id))
  }

  function WithStreak(c: Cache, id: Id, streak: nat): (d: Cache)
    requires c.Valid()
    ensures d.Valid()
  {
    c.(streaks := c.streaks.Without(id).With(id, streak))
  }

  function Inserted(c: Cache, id: Id, review: Review, handles: seq<nat>): (d: Cache)
    requires c.Valid()
    ensures d.Valid()
  {
    c.(reviews := c.reviews.Without(id).With(id, review),
       references := if handles != [] then c.references[id := handles] else c.references - {id})
  }

  function Stored(c: Cache, id: Id, review: Review, handles: seq<nat>, bound: nat): (d: Cache)
    requires c.Valid()
    ensures d.Valid() && |d.streaks.keys| <= |c.streaks.keys|
  {
    var inserted := Inserted(c, id, review, handles);
    if |inserted.reviews.keys| <= bound then inserted else inserted.Discarded(inserted.reviews.keys[0])
  }

  /** Streaks of candidates that are gone are dropped, for the keys listed. */
  function PrunedDead(d: Dict<nat>, listed: seq<Id>, live: set<Id>): (thin: Dict<nat>)
    requires d.Valid()
    ensures thin.Valid() && Thinner(thin, d)
  {
    if listed == [] then d
    else
      var rest := PrunedDead(d, listed[..|listed| - 1], live);
      var last := listed[|listed| - 1];
      if last in live then rest else rest.Without(last)
  }

  lemma PrunedDeadNext(d: Dict<nat>, listed: seq<Id>, i: nat, live: set<Id>)
    requires d.Valid() && i < |listed|
    ensures PrunedDead(d, listed[..i + 1], live) ==
            if listed[i] in live then PrunedDead(d, listed[..i], live)
            else PrunedDead(d, listed[..i], live).Without(listed[i])
  {
    assert listed[..i + 1][..i] == listed[..i];
  }

  function PrunedOldest(d: Dict<nat>, bound: nat): (thin: Dict<nat>)
    requires d.Valid()
    ensures thin.Valid() && Thinner(thin, d) && |thin.keys| <= bound
    decreases |d.keys|
  {
    if |d.keys| <= bound then d else PrunedOldest(d.Without(d.Oldest()), bound)
  }

  function Pruned(c: Cache, live: set<Id>, bound: nat): (d: Cache)
    requires c.Valid()
    ensures d.Valid() && Thinner(d.streaks, c.streaks) && |d.streaks.keys| <= bound
  {
    c.(streaks := PrunedOldest(PrunedDead(c.streaks, c.streaks.keys, live), bound))
  }

  /** No streak of a candidate that is gone survives the pruning. */
  lemma {:induction false} PrunedDeadLive(d: Dict<nat>, listed: seq<Id>, live: set<Id>)
    requires d.Valid()
    ensures forall k | k in PrunedDead(d, listed, live).values && k in KeySet(listed) :: k in live
  {
    if listed != [] {
      PrunedDeadLive(d, listed[..|listed| - 1], live);
    }
  }

  lemma PrunedLive(c: Cache, live: set<Id>, bound: nat)
    requires c.Valid()
    ensures forall k | k in Pruned(c, live, bound).streaks.values :: k in live
  {
    PrunedDeadLive(c.streaks, c.streaks.keys, live);
  }

  function Mismatched(c: Cache, id: Id, review: Review, live: set<Id>, threshold: nat, bound: nat): (d: Cache)
    requires c.Valid()
    ensures d.Valid() && |d.streaks.keys| <= bound
  {
    var streak := (if id in c.streaks.values then c.streaks.values[id] else 0) + 1;
    var counted := Pruned(WithStreak(c, id, streak), live, bound);
    if streak < threshold then counted else Stored(counted, id, review, [], bound)
  }

  function Matched(c: Cache, id: Id, review: Review, handles: seq<nat>, bound: nat): (d: Cache)
    requires c.Valid()
    ensures d.Valid() && |d.streaks.keys| <= |c.streaks.keys|
  {
    Stored(WithoutStreak(c, id), id, review, handles, bound)
  }

  /** One review of a living candidate in its epoch; `_cache_terminal_candidate_review` after its guards. */
  function Judged(c: Cache, id: Id, review: Review, accepted: bool, live: set<Id>, handles: seq<nat>, threshold: nat,
                  bound: nat): (d: Cache)
    requires c.Valid()
    ensures d.Valid() && (|c.streaks.keys| <= bound ==> |d.streaks.keys| <= bound)
  {
    match review.verdict
    case TargetMismatch => Mismatched(c, id, review, live, threshold, bound)
    case TargetMatch => if accepted then Matched(c, id, review, handles, bound) else WithoutStreak(c, id)
    case Inconclusive => WithoutStreak(c, id)
  }

  function After(c: Cache, id: Id, review: Review, accepted: bool, candidate: Option<Candidate>, live: set<Id>,
                 handles: seq<nat>, threshold: nat, bound: nat): (d: Cache)
    requires c.Valid()
    ensures d.Valid() && (|c.streaks.keys| <= bound ==> |d.streaks.keys| <= bound)
  {
    if candidate.None? || candidate.value.dead then WithoutStreak(c, id)
    else Judged(EpochEntered(c, id, candidate.value.firstSeen), id, review, accepted, live, handles, threshold, bound)
  }

  lemma DiscardedViews(c: Cache, id: Id, given: map<Id, seq<Given>>)
    requires c.Valid()
    ensures ViewOf(c.Discarded(id), given, id) == ViewOf(c, given, id).Blank()
    ensures forall k | k != id :: ViewOf(c.Discarded(id), given, k) == ViewOf(c, given, k)
  {
  }

  lemma EpochEnteredViews(c: Cache, id: Id, firstSeen: real, given: map<Id, seq<Given>>)
    requires c.Valid()
    ensures var v := ViewOf(c, given, id);
      ViewOf(EpochEntered(c, id, firstSeen), given, id) ==
        (if v.epoch.Some? && v.epoch != Some(firstSeen) then v.Blank() else v).(epoch := Some(firstSeen))
    ensures forall k | k != id :: ViewOf(EpochEntered(c, id, firstSeen), given, k) == ViewOf(c, given, k)
  {
    DiscardedViews(c, id, given);
  }

  lemma StreakViews(c: Cache, id: Id, streak: nat, given: map<Id, seq<Given>>)
    requires c.Valid()
    ensures ViewOf(WithoutStreak(c, id), given, id) == ViewOf(c, given, id).WithoutStreak()
    ensures ViewOf(WithStreak(c, id, streak), given, id) == ViewOf(c, given, id).(streak := Some(streak))
    ensures forall k | k != id :: ViewOf(WithoutStreak(c, id), given, k) == ViewOf(c, given, k)
    ensures forall k | k != id :: ViewOf(WithStreak(c, id, streak), given, k) == ViewOf(c, given, k)
  {
  }

  lemma ThinnedViews(c: Cache, thin: Dict<nat>, given: map<Id, seq<Given>>)
    requires Thinner(thin, c.streaks)
    ensures forall k :: var v, w := ViewOf(c.(streaks := thin), given, k), ViewOf(c, given, k); v == w || v == w.WithoutStreak()
  {
  }

  lemma InsertedViews(c: Cache, id: Id, review: Review, handles: seq<nat>, given: map<Id, seq<Given>>)
    requires c.Valid()
    ensures ViewOf(Inserted(c, id, review, handles), given, id) ==
            ViewOf(c, given, id).(review := Some(review), handles := handles)
    ensures forall k | k != id :: ViewOf(Inserted(c, id, review, handles), given, k) == ViewOf(c, given, k)
  {
  }

  lemma StoredViews(c: Cache, id: Id, review: Review, handles: seq<nat>, bound: nat, given: map<Id, seq<Given>>)
    requires c.Valid() && bound > 0
    ensures ViewOf(Stored(c, id, review, handles, bound), given, id) ==
            ViewOf(c, given, id).(review := Some(review), handles := handles)
    ensures OthersShrunk(c, Stored(c, id, review, handles, bound), given, id)
  {
    var inserted := Inserted(c, id, review, handles);
    InsertedViews(c, id, review, handles, given);
    if |inserted.reviews.keys| > bound {
      FirstIsNotLast(inserted.reviews.keys);
      DiscardedViews(inserted, inserted.reviews.keys[0], given);
    }
  }

  lemma FirstIsNotLast(keys: seq<Id>)
    requires |keys| > 1 && Distinct(keys)
    ensures keys[0] != keys[|keys| - 1]
  {
    FirstIsKey(keys[..|keys| - 1]);
  }

  function EpochOf(candidate: Option<Candidate>): Option<real> {
    if candidate.Some? && !candidate.value.dead then Some(candidate.value.firstSeen) else None
  }

  lemma CountedViews(c: Cache, id: Id, streak: nat, live: set<Id>, bound: nat, given: map<Id, seq<Given>>)
    requires c.Valid()
    ensures var v, w := ViewOf(c, given, id), ViewOf(Pruned(WithStreak(c, id, streak), live, bound), given, id);
      w == v.(streak := Some(streak)) || w == v.WithoutStreak()
    ensures OthersShrunk(c, Pruned(WithStreak(c, id, streak), live, bound), given, id)
  {
    StreakViews(c, id, streak, given);
    var counted := WithStreak(c, id, streak);
    var pruned := Pruned(counted, live, bound);
    ThinnedViews(counted, pruned.streaks, given);
    forall k | k != id ensures Shrunk(ViewOf(pruned, given, k), ViewOf(c, given, k)) {
      assert ViewOf(counted, given, k) == ViewOf(c, given, k);
    }
  }

  lemma MismatchViews(c: Cache, id: Id, review: Review, live: set<Id>, threshold: nat, bound: nat,
                      given: map<Id, seq<Given>>)
    requires c.Valid() && bound > 0
    ensures var v, w := ViewOf(c, given, id), ViewOf(Mismatched(c, id, review, live, threshold, bound), given, id);
      var streak := (if v.streak.Some? then v.streak.value else 0) + 1;
      var told := if streak < threshold then v.(streak := Some(streak))
                  else v.(streak := Some(streak), review := Some(review), handles := []);
      w == told || w == told.WithoutStreak()
    ensures OthersShrunk(c, Mismatched(c, id, review, live, threshold, bound), given, id)
  {
    var v := ViewOf(c, given, id);
    var streak := (if v.streak.Some? then v.streak.value else 0) + 1;
    CountedViews(c, id, streak, live, bound, given);
    if streak >= threshold {
      var pruned := Pruned(WithStreak(c, id, streak), live, bound);
      StoredViews(pruned, id, review, [], bound, given);
      OthersShrunkTwice(c, pruned, Stored(pruned, id, review, [], bound), given, id);
    }
  }

  lemma OthersShrunkTwice(c: Cache, d: Cache, e: Cache, given: map<Id, seq<Given>>, id: Id)
    requires OthersShrunk(c, d, given, id) && OthersShrunk(d, e, given, id)
    ensures OthersShrunk(c, e, given, id)
  {
    forall k | k != id ensures Shrunk(ViewOf(e, given, k), ViewOf(c, given, k)) {
      assert Shrunk(ViewOf(d, given, k), ViewOf(c, given, k));
      assert Shrunk(ViewOf(e, given, k), ViewOf(d, given, k));
    }
  }

  /** The per-candidate law, with the epoch entered and the review not yet in the history. */
  function Told(v: View, review: Review, accepted: bool, handles: seq<nat>, threshold: nat): View {
    match review.verdict
    case TargetMismatch =>
      var streak := (if v.streak.Some? then v.streak.value else 0) + 1;
      if streak < threshold then v.(streak := Some(streak))
      else v.(streak := Some(streak), review := Some(review), handles := [])
    case TargetMatch =>
      if accepted then v.(streak := None, review := Some(review), handles := handles) else v.WithoutStreak()
    case Inconclusive => v.WithoutStreak()
  }

  lemma MatchViews(c: Cache, id: Id, review: Review, handles: seq<nat>, bound: nat, given: map<Id, seq<Given>>)
    requires c.Valid() && bound > 0
    ensures ViewOf(WithoutStreak(c, id), given, id) == ViewOf(c, given, id).WithoutStreak()
    ensures OthersShrunk(c, WithoutStreak(c, id), given, id)
    ensures ViewOf(Matched(c, id, review, handles, bound), given, id) ==
            ViewOf(c, given, id).(streak := None, review := Some(review), handles := handles)
    ensures OthersShrunk(c, Matched(c, id, review, handles, bound), given, id)
  {
    var broken := WithoutStreak(c, id);
    StreakViews(c, id, 0, given);
    StoredViews(broken, id, review, handles, bound, given);
    OthersShrunkTwice(c, broken, Matched(c, id, review, handles, bound), given, id);
  }

  lemma JudgedViews(c: Cache, id: Id, review: Review, accepted: bool, live: set<Id>, handles: seq<nat>, threshold: nat,
                    bound: nat, given: map<Id, seq<Given>>)
    requires c.Valid() && bound > 0
    ensures var d := Judged(c, id, review, accepted, live, handles, threshold, bound);
      var told := Told(ViewOf(c, given, id), review, accepted, handles, threshold);
      (ViewOf(d, given, id) == told || ViewOf(d, given, id) == told.WithoutStreak()) && OthersShrunk(c, d, given, id)
  {
    match review.verdict
    case TargetMismatch => MismatchViews(c, id, review, live, threshold, bound, given);
    case TargetMatch => MatchViews(c, id, review, handles, bound, given);
    case Inconclusive => MatchViews(c, id, review, handles, bound, given);
  }

  /** The whole operation moves the candidate as told, and only shrinks the others. */
  lemma AfterSteps(c: Cache, id: Id, review: Review, accepted: bool, candidate: Option<Candidate>, live: set<Id>,
                   handles: seq<nat>, threshold: nat, bound: nat, before: map<Id, seq<Given>>)
    requires c.Valid() && bound > 0
    ensures Stepped(c, before, After(c, id, review, accepted, candidate, live, handles, threshold, bound), id,
                    Given(review, accepted, EpochOf(candidate)), handles, threshold)
  {
    var g := Given(review, accepted, EpochOf(candidate));
    var d := After(c, id, review, accepted, candidate, live, handles, threshold, bound);
    if g.epoch.None? {
      StreakViews(c, id, 0, before);
    } else {
      EpochEnteredViews(c, id, g.epoch.value, before);
      var entered := EpochEntered(c, id, g.epoch.value);
      assert OthersShrunk(c, entered, before, id);
      JudgedViews(entered, id, review, accepted, live, handles, threshold, bound, before);
      OthersShrunkTwice(c, entered, d, before, id);
      ToldIsReviewed(ViewOf(c, before, id), g, handles, threshold);
    }
    SteppedFrom(c, before, d, before[id := History(before, id) + [g]], id, g, handles, threshold);
  }

  lemma ToldIsReviewed(v: View, g: Given, handles: seq<nat>, threshold: nat)
    requires g.epoch.Some?
    ensures Told(EpochBase(v, g).(history := v.history), g.review, g.accepted, handles, threshold)
            == Reviewed(v, g, handles, threshold).(history := v.history)
  {
  }

  /** `Stepped`, from the view over the history that does not yet contain the review. */
  lemma SteppedFrom(c: Cache, before: map<Id, seq<Given>>, d: Cache, given: map<Id, seq<Given>>, id: Id, g: Given,
                    handles: seq<nat>, threshold: nat)
    requires given == before[id := History(before, id) + [g]] && OthersShrunk(c, d, before, id)
    requires var told := Reviewed(ViewOf(c, before, id), g, handles, threshold).(history := History(before, id));
      var v := ViewOf(d, before, id);
      v == told || v == told.WithoutStreak()
    ensures Stepped(c, before, d, id, g, handles, threshold)
  {
    assert ViewOf(d, given, id) == ViewOf(d, before, id).(history := History(before, id) + [g]);
  }

  class CandidateReviews {
    const threshold: nat     // candidate_mismatch_threshold
    const bound: nat         // max_candidate_reviews
    var reviews: Dict<Review>
    var references: map<Id, seq<nat>>
    var streaks: Dict<nat>
    var epochs: map<Id, real>
    ghost var given: map<Id, seq<Given>>
    ghost var updated: map<Id, nat>
    ghost var clock: nat

    function Now(): Cache
      reads this
    {
      Cache(reviews, references, streaks, epochs)
    }

    ghost predicate Kept()
      reads this
    {
      Now().Valid() && threshold > 0 && bound > 0 && Ordered(reviews.keys, updated, clock)
    }

    ghost predicate AllFine()
      reads this
    {
      forall k :: Fine(ViewOf(Now(), given, k), threshold)
    }

    /** Within both bounds, in least-recently-updated order, every item justified. */
    ghost predicate Valid()
      reads this
    {
      Kept() && AllFine() && |reviews.keys| <= bound && |streaks.keys| <= bound
    }

    constructor (threshold: nat, bound: nat)
      requires threshold > 0 && bound > 0
      ensures Valid() && this.threshold == threshold && this.bound == bound && reviews.keys == [] && given == map[]
    {
      this.threshold, this.bound := threshold, bound;
      reviews, references, streaks, epochs := Dict([], map[]), map[], Dict([], map[]), map[];
      given, updated, clock := map[], map[], 0;
    }

    method Discard(id: Id)
      requires Kept()
      modifies `reviews, `references, `streaks, `epochs
      ensures Kept() && Now() == old(Now()).Discarded(id)
    {
      if id in reviews.values {
        OrderedWithout(reviews.keys, id, updated, clock);
      }
      reviews, references := reviews.Without(id), references - {id};
      streaks, epochs := streaks.Without(id), epochs - {id};
    }

    /** Drop the streaks of candidates that are gone, then the oldest over the bound. */
    method PruneStreaks(live: set<Id>)
      requires Kept()
      modifies `streaks
      ensures Kept() && Now() == Pruned(old(Now()), live, bound)
    {
      DropDead(live);
      DropOldestStreaks();
    }

    method DropOldestStreaks()
      requires streaks.Valid()
      modifies `streaks
      ensures streaks == PrunedOldest(old(streaks), bound)
    {
      while |streaks.keys| > bound
        invariant streaks.Valid() && PrunedOldest(streaks, bound) == PrunedOldest(old(streaks), bound)
        decreases |streaks.keys|
      {
        streaks := streaks.Without(streaks.Oldest());
      }
    }

    method DropDead(live: set<Id>)
      requires streaks.Valid()
      modifies `streaks
      ensures streaks == PrunedDead(old(streaks), old(streaks.keys), live)
    {
      var retained := streaks.keys;
      for i := 0 to |retained|
        invariant streaks == PrunedDead(old(streaks), retained[..i], live)
      {
        PrunedDeadNext(old(streaks), retained, i, live);
        if retained[i] !in live {
          streaks := streaks.Without(retained[i]);
        }
      }
      assert retained[..|retained|] == retained;
    }

    /** Reinsert the review as the most recently updated one. */
    method Reinsert(id: Id, review: Review)
      requires Kept()
      modifies `reviews, `updated, `clock
      ensures Kept()
      ensures reviews == old(reviews).Without(id).With(id, review)
    {
      OrderedReinserted(reviews, id, review, updated, clock);
      reviews := reviews.Without(id).With(id, review);
      updated, clock := updated[id := clock], clock + 1;
    }

    /** Evict the least recently updated review over the bound, with all that is kept about its candidate. */
    method EvictOldest()
      requires Kept() && |reviews.keys| <= bound + 1
      modifies `reviews, `references, `streaks, `epochs
      ensures Kept() && |reviews.keys| <= bound
      ensures Now() == if |old(reviews.keys)| <= bound then old(Now()) else old(Now()).Discarded(old(reviews.keys[0]))
    {
      while |reviews.keys| > bound
        invariant Kept()
        invariant |reviews.keys| > bound ==> Now() == old(Now()) && |reviews.keys| == bound + 1
        invariant |reviews.keys| <= bound ==>
          Now() == if |old(reviews.keys)| <= bound then old(Now()) else old(Now()).Discarded(old(reviews.keys[0]))
        decreases |reviews.keys|
      {
        var oldest := reviews.Oldest();
        Discard(oldest);
      }
    }

    /** The epoch bookkeeping of a review of a living candidate. */
    method EnterEpoch(id: Id, firstSeen: real)
      requires Kept()
      modifies `reviews, `references, `streaks, `epochs
      ensures Kept() && |reviews.keys| <= |old(reviews.keys)| && |streaks.keys| <= |old(streaks.keys)|
      ensures Now() == EpochEntered(old(Now()), id, firstSeen)
    {
      if id in epochs && epochs[id] != firstSeen {
        Discard(id);
      }
      epochs := epochs[id := firstSeen];
    }

    method StoreTerminal(id: Id, review: Review, handles: seq<nat>)
      requires Kept() && |reviews.keys| <= bound
      modifies `reviews, `references, `streaks, `epochs, `updated, `clock
      ensures Kept() && |reviews.keys| <= bound
      ensures Now() == Stored(old(Now()), id, review, handles, bound)
    {
      Reinsert(id, review);
      references := if handles != [] then references[id := handles] else references - {id};
      EvictOldest();
    }

    method JudgeMismatch(id: Id, review: Review, live: set<Id>)
      requires Kept() && |reviews.keys| <= bound
      modifies `reviews, `references, `streaks, `epochs, `updated, `clock
      ensures Kept() && |reviews.keys| <= bound
      ensures Now() == Mismatched(old(Now()), id, review, live, threshold, bound)
    {
      var streak := (if id in streaks.values then streaks.values[id] else 0) + 1;
      streaks := streaks.Without(id).With(id, streak);
      PruneStreaks(live);
      if streak >= threshold {
        StoreTerminal(id, review, []);
      }
    }

    /** The verdict on a living candidate whose epoch is entered. */
    method Judge(id: Id, review: Review, accepted: bool, live: set<Id>, handles: seq<nat>)
      requires Kept() && |reviews.keys| <= bound
      modifies `reviews, `references, `streaks, `epochs, `updated, `clock
      ensures Kept() && |reviews.keys| <= bound
      ensures Now() == Judged(old(Now()), id, review, accepted, live, handles, threshold, bound)
    {
      if review.verdict == TargetMismatch {
        JudgeMismatch(id, review, live);
      } else {
        streaks := streaks.Without(id);
        if review.verdict == TargetMatch && accepted {
          StoreTerminal(id, review, handles);
        }
      }
    }

    /** The dictionary work of `_cache_terminal_candidate_review`. */
    method Update(id: Id, review: Review, accepted: bool, candidate: Option<Candidate>, live: set<Id>, handles: seq<nat>)
      requires Kept() && |reviews.keys| <= bound
      modifies `reviews, `references, `streaks, `epochs, `updated, `clock
      ensures Kept() && |reviews.keys| <= bound
      ensures Now() == After(old(Now()), id, review, accepted, candidate, live, handles, threshold, bound)
    {
      if candidate.None? || candidate.value.dead {
        streaks := streaks.Without(id);
      } else {
        EnterEpoch(id, candidate.value.firstSeen);
        Judge(id, review, accepted, live, handles);
      }
    }

    /** `_cache_terminal_candidate_review`. */
    method CacheTerminalReview(id: Id, review: Review, accepted: bool, candidate: Option<Candidate>, live: set<Id>,
                               handles: seq<nat>)
      requires Valid()
      modifies this
      ensures Valid()
      ensures Now() == After(old(Now()), id, review, accepted, candidate, live, handles, threshold, bound)
      ensures given == old(given)[id := History(old(given), id) + [Given(review, accepted, EpochOf(candidate))]]
      ensures Stepped(old(Now()), old(given), Now(), id, Given(review, accepted, EpochOf(candidate)), handles, threshold)
    {
      ghost var c, before, g := Now(), given, Given(review, accepted, EpochOf(candidate));
      Update(id, review, accepted, candidate, live, handles);
      AfterSteps(c, id, review, accepted, candidate, live, handles, threshold, bound, before);
      given := given[id := History(given, id) + [g]];
      SteppedFine(c, before, Now(), given, id, g, handles, threshold);
    }

    /**
     `latest_candidate_review`: a review is handed out only to the living
     candidate whose first-seen epoch it was cached in; otherwise everything
     kept about the candidate is dropped.
     */
    method Latest(id: Id, candidate: Option<Candidate>) returns (r: Option<Review>)
      requires Valid()
      modifies `reviews, `references, `streaks, `epochs
      ensures Valid()
      ensures Now() == old(Now()).AnsweredFor(id, candidate)
      ensures r.Some? <==> old(Now()).Answerable(id, candidate)
      ensures r.Some? ==> Now() == old(Now()) && Get(reviews.values, id) == r
      ensures r.Some? ==> EpochOf(candidate).Some? && r.value.observed >= EpochOf(candidate).value
                          && Earned(r.value, History(given, id), EpochOf(candidate).value, threshold)
      ensures r.None? ==> Now() == if id in old(reviews.values) then old(Now()).Discarded(id) else old(Now())
    {
      if id !in reviews.values {
        return None;
      }
      var review := reviews.values[id];
      assert Fine(ViewOf(Now(), given, id), threshold);
      if candidate.None? || candidate.value.dead || Get(epochs, id) != Some(candidate.value.firstSeen)
         || review.observed < candidate.value.firstSeen {
        DiscardedFine(Now(), id, given, threshold);
        Discard(id);
        return None;
      }
      return Some(review);
    }

    /** A change of mission or plan version forgets every streak and keeps the cache. */
    method ChangeRoute()
      requires Valid()
      modifies `streaks
      ensures Valid() && Now() == old(Now()).(streaks := Dict([], map[]))
    {
      ThinnedViews(Now(), Dict([], map[]), given);
      forall k ensures Fine(ViewOf(Now().(streaks := Dict([], map[])), given, k), threshold) {
        assert Fine(ViewOf(Now(), given, k), threshold);
      }
      streaks := Dict([], map[]);
    }
  }

  // ------------------------------------------------------------ whole runs

  datatype Call =
    | ReviewGiven(id: Id, review: Review, accepted: bool, candidate: Option<Candidate>, live: set<Id>, handles: seq<nat>)
    | Asked(id: Id, candidate: Option<Candidate>)
    | RouteChanged

  /** What a call leaves of the cache. */
  function CacheAfter(c: Cache, call: Call, threshold: nat, bound: nat): (d: Cache)
    requires c.Valid()
    ensures d.Valid()
  {
    match call
    case ReviewGiven(id, review, accepted, candidate, live, handles) =>
      After(c, id, review, accepted, candidate, live, handles, threshold, bound)
    case Asked(id, candidate) => c.AnsweredFor(id, candidate)
    case RouteChanged => c.(streaks := Dict([], map[]))
  }

  /** What is kept, and the reviews given so far. */
  datatype Moment = Moment(cache: Cache, given: map<Id, seq<Given>>)

  function GivenBy(call: Call): Given
    requires call.ReviewGiven?
  {
    Given(call.review, call.accepted, EpochOf(call.candidate))
  }

  function MomentAfter(m: Moment, call: Call, threshold: nat, bound: nat): (n: Moment)
    requires m.cache.Valid()
    ensures n.cache.Valid()
  {
    Moment(CacheAfter(m.cache, call, threshold, bound),
           if call.ReviewGiven? then m.given[call.id := History(m.given, call.id) + [GivenBy(call)]] else m.given)
  }

  /** The moments before and after each of the calls. */
  function Moments(m: Moment, calls: seq<Call>, threshold: nat, bound: nat): (moments: seq<Moment>)
    requires m.cache.Valid()
    ensures |moments| == |calls| + 1 && moments[0] == m && moments[|calls|].cache.Valid()
  {
    if calls == [] then [m]
    else
      var last := |calls| - 1;
      var before := Moments(m, calls[..last], threshold, bound);
      before + [MomentAfter(before[last], calls[last], threshold, bound)]
  }

  /** How a call moves what is kept about every candidate. */
  ghost predicate Follows(a: Moment, b: Moment, call: Call, threshold: nat) {
    match call
    case ReviewGiven(id, _, _, _, _, handles) =>
      && b.given == a.given[id := History(a.given, id) + [GivenBy(call)]]
      && Stepped(a.cache, a.given, b.cache, id, GivenBy(call), handles, threshold)
    case Asked(id, _) =>
      b.given == a.given && a.cache.Valid() && (b.cache == a.cache || b.cache == a.cache.Discarded(id))
    case RouteChanged =>
      b.given == a.given && b.cache == a.cache.(streaks := Dict([], map[]))
  }

  /** Every cached mismatch is its candidate's last word. */
  ghost predicate AllStanding(m: Moment, threshold: nat) {
    forall k :: Standing(ViewOf(m.cache, m.given, k), threshold)
  }

  /** The call is a review that breaks the streak of a mismatch cached for its candidate. */
  predicate Outdates(m: Moment, call: Call) {
    call.ReviewGiven? &&
    var v := ViewOf(m.cache, m.given, call.id);
    HasMismatch(v) && Breaks(GivenBy(call), v.epoch)
  }

  ghost predicate AllFine(m: Moment, threshold: nat) {
    forall k :: Fine(ViewOf(m.cache, m.given, k), threshold)
  }

  lemma StandingShrunk(v: View, w: View, threshold: nat)
    requires Shrunk(v, w) && Standing(w, threshold)
    ensures Standing(v, threshold)
  {
  }

  lemma StandingAfterCall(a: Moment, b: Moment, call: Call, threshold: nat)
    requires threshold > 0 && AllFine(a, threshold) && AllStanding(a, threshold) && Follows(a, b, call, threshold)
    ensures AllStanding(b, threshold) <==> !Outdates(a, call)
  {
    if call.ReviewGiven? {
      StandingReviewIff(ViewOf(a.cache, a.given, call.id), GivenBy(call), call.handles, threshold);
      ReviewKeepsOthers(a, b, call, threshold);
    } else {
      forall k ensures Standing(ViewOf(b.cache, b.given, k), threshold) {
        if call.Asked? {
          DiscardedViews(a.cache, call.id, a.given);
        } else {
          ThinnedViews(a.cache, Dict([], map[]), a.given);
        }
        StandingShrunk(ViewOf(b.cache, b.given, k), ViewOf(a.cache, a.given, k), threshold);
      }
    }
  }

  lemma ReviewKeepsOthers(a: Moment, b: Moment, call: Call, threshold: nat)
    requires call.ReviewGiven? && AllStanding(a, threshold) && Follows(a, b, call, threshold)
    ensures forall k | k != call.id :: Standing(ViewOf(b.cache, b.given, k), threshold)
  {
    forall k | k != call.id ensures Standing(ViewOf(b.cache, b.given, k), threshold) {
      assert ViewOf(b.cache, b.given, k) == ViewOf(b.cache, a.given, k);
      StandingShrunk(ViewOf(b.cache, a.given, k), ViewOf(a.cache, a.given, k), threshold);
    }
  }

  /** The calls lead from moment to moment. */
  ghost predicate Leads(moments: seq<Moment>, calls: seq<Call>, threshold: nat) {
    && |moments| == |calls| + 1 && (forall n: nat | n < |moments| :: AllFine(moments[n], threshold))
    && forall n: nat | n < |calls| :: Follows(moments[n], moments[n + 1], calls[n], threshold)
  }

  lemma {:induction false} StandingUntil(moments: seq<Moment>, calls: seq<Call>, threshold: nat, n: nat)
    requires threshold > 0 && Leads(moments, calls, threshold) && n <= |calls| && AllStanding(moments[0], threshold)
    requires forall k: nat | k < n :: !Outdates(moments[k], calls[k])
    ensures AllStanding(moments[n], threshold)
  {
    if n > 0 {
      StandingUntil(moments, calls, threshold, n - 1);
      StandingAfterCall(moments[n - 1], moments[n], calls[n - 1], threshold);
    }
  }

  lemma StandingThroughoutIff(moments: seq<Moment>, calls: seq<Call>, threshold: nat)
    requires threshold > 0 && Leads(moments, calls, threshold) && AllStanding(moments[0], threshold)
    ensures (forall n: nat | n <= |calls| :: AllStanding(moments[n], threshold))
            <==> (forall n: nat | n < |calls| :: !Outdates(moments[n], calls[n]))
  {
    if n: nat :| n < |calls| && Outdates(moments[n], calls[n]) {
      if AllStanding(moments[n], threshold) {
        StandingAfterCall(moments[n], moments[n + 1], calls[n], threshold);
      }
    } else {
      forall n: nat | n <= |calls| ensures AllStanding(moments[n], threshold) {
        StandingUntil(moments, calls, threshold, n);
      }
    }
  }

  method OneCall(c: CandidateReviews, call: Call)
    requires c.Valid()
    modifies c
    ensures c.Valid() && Moment(c.Now(), c.given) == MomentAfter(old(Moment(c.Now(), c.given)), call, c.threshold, c.bound)
  {
    match call
    case ReviewGiven(id, review, accepted, candidate, live, handles) =>
      c.CacheTerminalReview(id, review, accepted, candidate, live, handles);
    case Asked(id, candidate) =>
      var r := c.Latest(id, candidate);
    case RouteChanged =>
      c.ChangeRoute();
  }

  /**
   Any run of the cache whose mismatches all stand at first: they all stand
   after every call exactly when no review comes that breaks the streak of a
   mismatch then cached for its candidate.
   */
  method RunCalls(c: CandidateReviews, calls: seq<Call>) returns (ghost moments: seq<Moment>)
    requires c.Valid() && AllStanding(Moment(c.Now(), c.given), c.threshold)
    modifies c
    ensures c.Valid() && Leads(moments, calls, c.threshold)
    ensures moments == Moments(old(Moment(c.Now(), c.given)), calls, c.threshold, c.bound)
    ensures moments[0] == old(Moment(c.Now(), c.given)) && moments[|calls|] == Moment(c.Now(), c.given)
    ensures (forall n: nat | n <= |calls| :: AllStanding(moments[n], c.threshold))
            <==> (forall n: nat | n < |calls| :: !Outdates(moments[n], calls[n]))
  {
    MomentsLead(Moment(c.Now(), c.given), calls, c.threshold, c.bound);
    moments := Moments(Moment(c.Now(), c.given), calls, c.threshold, c.bound);
    StandingThroughoutIff(moments, calls, c.threshold);
    for i := 0 to |calls|
      invariant c.Valid()
      invariant Moment(c.Now(), c.given) == Moments(old(Moment(c.Now(), c.given)), calls[..i], c.threshold, c.bound)[i]
    {
      OneCall(c, calls[i]);
      assert calls[..i + 1][..i] == calls[..i];
    }
    assert calls[..|calls|] == calls;
  }

  /** A call moves what is kept about every candidate by the per-candidate law, and keeps it justified. */
  lemma MomentFollows(m: Moment, call: Call, threshold: nat, bound: nat)
    requires m.cache.Valid() && threshold > 0 && bound > 0 && AllFine(m, threshold)
    ensures var n := MomentAfter(m, call, threshold, bound); Follows(m, n, call, threshold) && AllFine(n, threshold)
  {
    match call
    case ReviewGiven(id, review, accepted, candidate, live, handles) =>
      AfterSteps(m.cache, id, review, accepted, candidate, live, handles, threshold, bound, m.given);
      var n := MomentAfter(m, call, threshold, bound);
      SteppedFine(m.cache, m.given, n.cache, n.given, id, GivenBy(call), handles, threshold);
    case Asked(id, candidate) =>
      DiscardedFine(m.cache, id, m.given, threshold);
    case RouteChanged =>
      ThinnedViews(m.cache, Dict([], map[]), m.given);
      forall k ensures Fine(ViewOf(m.cache.(streaks := Dict([], map[])), m.given, k), threshold) {
        assert Fine(ViewOf(m.cache, m.given, k), threshold);
      }
  }

  lemma {:induction false} MomentsLead(m: Moment, calls: seq<Call>, threshold: nat, bound: nat)
    requires m.cache.Valid() && threshold > 0 && bound > 0 && AllFine(m, threshold)
    ensures Leads(Moments(m, calls, threshold, bound), calls, threshold)
  {
    if calls != [] {
      var last := |calls| - 1;
      MomentsLead(m, calls[..last], threshold, bound);
      var before := Moments(m, calls[..last], threshold, bound);
      MomentFollows(before[last], calls[last], threshold, bound);
      LeadsFurther(before, calls[..last], threshold, MomentAfter(before[last], calls[last], threshold, bound), calls[last]);
      assert calls == calls[..last] + [calls[last]];
    }
  }

  lemma LeadsFurther(moments: seq<Moment>, calls: seq<Call>, threshold: nat, m: Moment, call: Call)
    requires Leads(moments, calls, threshold) && AllFine(m, threshold)
    requires Follows(moments[|calls|], m, call, threshold)
    ensures Leads(moments + [m], calls + [call], threshold)
  {
  }

  lemma DiscardedFine(c: Cache, id: Id, given: map<Id, seq<Given>>, threshold: nat)
    requires c.Valid() && forall k :: Fine(ViewOf(c, given, k), threshold)
    ensures forall k :: Fine(ViewOf(c.Discarded(id), given, k), threshold)
  {
    DiscardedViews(c, id, given);
    forall k ensures Fine(ViewOf(c.Discarded(id), given, k), threshold) {
      assert Fine(ViewOf(c, given, k), threshold);
    }
  }
}
