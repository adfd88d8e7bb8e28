/** The sliding-window rate limiter (backend/rate_limit.py, lines 9-33). */
module RateLimit {

  datatype Rule = Rule(name: string, maxRequests: int, windowSeconds: int)

  /** bucket_key. */
  datatype Key = Key(rule: string, client: string)

  // ---------------------------------------------------------------- windows

  predicate Ascending(s: seq<real>) {
    forall i, j :: 0 <= i < j < |s| ==> s[i] <= s[j]
  }

  /** The entries in (lo, hi]. */
  function Within(s: seq<real>, lo: real, hi: real): (r: seq<real>)
    ensures |r| <= |s| && forall x :: x in r <==> x in s && lo < x <= hi
  {
    if s == [] then []
    else Within(s[..|s| - 1], lo, hi) + if lo < s[|s| - 1] <= hi then [s[|s| - 1]] else []
  }

  /** The entries of the window of length w that ends at t. */
  function Window(s: seq<real>, t: real, w: real): seq<real> {
    Within(s, t - w, t)
  }

  /** No window holds more than m entries. */
  ghost predicate Bounded(s: seq<real>, m: int, w: real) {
    forall t: real :: |Window(s, t, w)| <= m
  }

  /** Entries m apart are w apart in time. */
  ghost predicate Spread(s: seq<real>, m: int, w: real)
    requires m >= 0
  {
    forall i, j :: 0 <= i && j == i + m && j < |s| ==> s[j] - s[i] >= w
  }

  lemma {:induction false} WithinAll(s: seq<real>, lo: real, hi: real)
    requires forall i :: 0 <= i < |s| ==> lo < s[i] <= hi
    ensures Within(s, lo, hi) == s
  {
    if s != [] {
      WithinAll(s[..|s| - 1], lo, hi);
      assert s == s[..|s| - 1] + [s[|s| - 1]];
    }
  }

  lemma {:induction false} WithinNone(s: seq<real>, lo: real, hi: real)
    requires forall i :: 0 <= i < |s| ==> !(lo < s[i] <= hi)
    ensures Within(s, lo, hi) == []
  {
    if s != [] {
      WithinNone(s[..|s| - 1], lo, hi);
    }
  }

  lemma {:induction false} WithinConcat(a: seq<real>, b: seq<real>, lo: real, hi: real)
    ensures Within(a + b, lo, hi) == Within(a, lo, hi) + Within(b, lo, hi)
  {
    if b == [] {
      assert a + b == a;
    } else {
      assert (a + b)[..|a + b| - 1] == a + b[..|b| - 1];
      WithinConcat(a, b[..|b| - 1], lo, hi);
    }
  }

  /** In ascending entries a window is a run. */
  lemma WithinRun(s: seq<real>, lo: real, hi: real, i: nat, j: nat)
    requires i <= j <= |s|
    requires forall k :: 0 <= k < i ==> s[k] <= lo
    requires forall k :: i <= k < j ==> lo < s[k] <= hi
    requires forall k :: j <= k < |s| ==> hi < s[k]
    ensures Within(s, lo, hi) == s[i..j]
  {
    var before, run, after := s[..i], s[i..j], s[j..];
    ThreeParts(s, i, j);
    WithinNone(before, lo, hi);
    WithinAll(run, lo, hi);
    WithinNone(after, lo, hi);
    WithinConcat(before, run, lo, hi);
    WithinConcat(before + run, after, lo, hi);
  }

  lemma ThreeParts<T>(s: seq<T>, i: nat, j: nat)
    requires i <= j <= |s|
    ensures s == s[..i] + s[i..j] + s[j..]
  {
  }

  ghost function CountUpTo(s: seq<real>, x: real): (n: nat)
    ensures n <= |s|
  {
    if s == [] then 0 else if s[|s| - 1] <= x then |s| else CountUpTo(s[..|s| - 1], x)
  }

  lemma {:induction false} CountUpToSplits(s: seq<real>, x: real)
    requires Ascending(s)
    ensures forall k :: 0 <= k < CountUpTo(s, x) ==> s[k] <= x
    ensures forall k :: CountUpTo(s, x) <= k < |s| ==> s[k] > x
  {
    if s != [] && s[|s| - 1] > x {
      CountUpToSplits(s[..|s| - 1], x);
    }
  }

  lemma CountUpToMonotone(s: seq<real>, x: real, y: real)
    requires Ascending(s) && x <= y
    ensures CountUpTo(s, x) <= CountUpTo(s, y)
  {
    CountUpToSplits(s, x);
    CountUpToSplits(s, y);
  }

  lemma WithinIs(s: seq<real>, lo: real, hi: real)
    requires Ascending(s) && lo <= hi
    ensures CountUpTo(s, lo) <= CountUpTo(s, hi) && Within(s, lo, hi) == s[CountUpTo(s, lo)..CountUpTo(s, hi)]
  {
    CountUpToMonotone(s, lo, hi);
    CountUpToSplits(s, lo);
    CountUpToSplits(s, hi);
    WithinRun(s, lo, hi, CountUpTo(s, lo), CountUpTo(s, hi));
  }

  /** A window of no length is empty. */
  lemma NoWindow(s: seq<real>, t: real, w: real)
    requires w <= 0.0
    ensures Window(s, t, w) == []
  {
    WithinNone(s, t - w, t);
  }

  /** The two ways of saying that the limit is kept agree. */
  lemma BoundedIffSpread(s: seq<real>, m: int, w: real)
    requires Ascending(s) && m >= 0
    ensures Bounded(s, m, w) <==> Spread(s, m, w)
  {
    if Spread(s, m, w) {
      forall t: real ensures |Window(s, t, w)| <= m {
        SpreadBounds(s, m, w, t);
      }
    }
    if Bounded(s, m, w) && w > 0.0 {
      forall i, j | 0 <= i && j == i + m && j < |s| ensures s[j] - s[i] >= w {
        TooClose(s, m, w, i);
        assert |Window(s, s[j], w)| <= m;
      }
    }
  }

  lemma SpreadBounds(s: seq<real>, m: int, w: real, t: real)
    requires Ascending(s) && m >= 0 && Spread(s, m, w)
    ensures |Window(s, t, w)| <= m
  {
    if w <= 0.0 {
      NoWindow(s, t, w);
    } else {
      SpreadBoundsOpen(s, m, w, t);
    }
  }

  lemma SpreadBoundsOpen(s: seq<real>, m: int, w: real, t: real)
    requires Ascending(s) && w > 0.0 && m >= 0 && Spread(s, m, w)
    ensures |Window(s, t, w)| <= m
  {
    var i, j := CountUpTo(s, t - w), CountUpTo(s, t);
    WithinIs(s, t - w, t);
    CountUpToSplits(s, t - w);
    CountUpToSplits(s, t);
    SpreadAt(s, m, w, i);
  }

  lemma SpreadAt(s: seq<real>, m: int, w: real, i: nat)
    requires m >= 0 && Spread(s, m, w)
    ensures i + m < |s| ==> s[i + m] - s[i] >= w
  {
  }

  lemma TooClose(s: seq<real>, m: int, w: real, i: nat)
    requires Ascending(s) && w > 0.0 && m >= 0 && i + m < |s|
    ensures s[i + m] - s[i] < w ==> |Window(s, s[i + m], w)| > m
  {
    var t := s[i + m];
    WithinIs(s, t - w, t);
    CountUpToSplits(s, t - w);
    CountUpToSplits(s, t);
    assert CountUpTo(s, t) > i + m;
  }

  /** Admitting one more at the end of a window that is not full keeps the limit. */
  lemma SpreadSnoc(s: seq<real>, m: int, w: real, now: real)
    requires Ascending(s) && m > 0 && Spread(s, m, w) && (forall i :: 0 <= i < |s| ==> s[i] <= now)
    requires |Window(s, now, w)| < m
    ensures Spread(s + [now], m, w) && Ascending(s + [now])
  {
    if w > 0.0 {
      SpreadSnocOpen(s, m, w, now);
    }
  }

  lemma SpreadSnocOpen(s: seq<real>, m: int, w: real, now: real)
    requires Ascending(s) && w > 0.0 && m > 0 && Spread(s, m, w) && (forall i :: 0 <= i < |s| ==> s[i] <= now)
    requires |Window(s, now, w)| < m
    ensures Spread(s + [now], m, w)
  {
    var r := s + [now];
    WithinIs(s, now - w, now);
    CountUpToSplits(s, now - w);
    CountUpToSplits(s, now);
    assert CountUpTo(s, now) == |s|;
    forall i, j | 0 <= i && j == i + m && j < |r| ensures r[j] - r[i] >= w {
      if j == |s| {
        assert i < CountUpTo(s, now - w);
      } else {
        assert s[j] - s[i] >= w;
      }
    }
  }

  // ---------------------------------------------------------------- the limiter

  /** How many requests a window may hold: none at all when the limit is zero or less. */
  function Cap(rule: Rule): nat {
    if rule.maxRequests >= 0 then rule.maxRequests else 0
  }

  /** What check comes to. Refusing with an empty bucket looks for an oldest entry that is not there. */
  datatype Verdict = Admitted | Refused(retryAfter: int) | IndexError

  function Seconds(rule: Rule): real {
    rule.windowSeconds as real
  }

  type Table = map<Key, seq<real>>

  ghost function Get(m: Table, k: Key): seq<real> {
    if k in m then m[k] else []
  }

  /** What one bucket owes to the admissions so far: a tail of them, nothing younger than the window left out. */
  ghost predicate BucketOk(bucket: seq<real>, admitted: seq<real>, rule: Rule, latest: real) {
    && Ascending(admitted) && (forall i :: 0 <= i < |admitted| ==> admitted[i] <= latest)
    && Spread(admitted, Cap(rule), Seconds(rule))
    && IsTail(bucket, admitted, latest - Seconds(rule))
  }

  /** What any bucket keeps, whatever rules it has been used with. */
  ghost predicate HeldOk(bucket: seq<real>, latest: real) {
    Ascending(bucket) && forall i :: 0 <= i < |bucket| ==> bucket[i] <= latest
  }

  /** The entries of a bucket that are still in the window. */
  function Live(bucket: seq<real>, rule: Rule, now: real): seq<real> {
    Within(bucket, now - Seconds(rule), now)
  }

  /** Time passing owes nothing new. */
  lemma BucketLater(bucket: seq<real>, admitted: seq<real>, rule: Rule, latest: real, now: real)
    requires BucketOk(bucket, admitted, rule, latest) && latest <= now
    ensures BucketOk(bucket, admitted, rule, now)
  {
  }

  /** Once the stale entries are popped, the bucket is the window. */
  lemma BucketIsWindow(bucket: seq<real>, history: seq<real>, cutoff: real, now: real)
    requires Ascending(history) && (forall i :: 0 <= i < |history| ==> history[i] <= now)
    requires IsTail(bucket, history, cutoff)
    requires bucket == [] || bucket[0] > cutoff
    ensures Within(history, cutoff, now) == bucket
  {
    var n := |history| - |bucket|;
    assert forall k :: n <= k < |history| ==> history[k] >= bucket[0];
    WithinRun(history, cutoff, now, n, |history|);
  }

  /** A window never holds more than the limit. */
  lemma NeverOverfull(history: seq<real>, rule: Rule, now: real)
    requires Ascending(history) && Spread(history, Cap(rule), Seconds(rule))
    ensures |Window(history, now, Seconds(rule))| <= Cap(rule)
  {
    SpreadBounds(history, Cap(rule), Seconds(rule), now);
  }

  /** What a refusal answers when its oldest entry leaves the window after wait. */
  predicate IsRetry(retry: int, wait: real) {
    retry >= 1 && wait - 1.0 < retry as real && (retry as real <= wait || retry == 1)
  }

  /** Later, with nothing admitted in between, the window is smaller exactly when its oldest entry has left. */
  lemma WindowShrinksIff(history: seq<real>, w: real, now: real, later: real)
    requires w > 0.0 && now <= later && Ascending(history) && forall i :: 0 <= i < |history| ==> history[i] <= now
    requires Window(history, now, w) != []
    ensures |Window(history, later, w)| < |Window(history, now, w)| <==> Window(history, now, w)[0] <= later - w
  {
    WithinIs(history, now - w, now);
    WithinIs(history, later - w, later);
    CountUpToSplits(history, now);
    CountUpToSplits(history, later);
    CountUpToSplits(history, now - w);
    CountUpToSplits(history, later - w);
    CountUpToMonotone(history, now - w, later - w);
    assert CountUpTo(history, now) == |history| == CountUpTo(history, later);
    assert history[CountUpTo(history, now - w)] == Window(history, now, w)[0];
  }

  lemma WholeWait(retry: int, wait: real)
    requires IsRetry(retry, wait)
    ensures wait <= retry as real <==> wait <= 1.0 || wait == wait.Floor as real
  {
    if wait == wait.Floor as real {
      assert wait.Floor - 1 < retry;
    }
  }

  /** A client that waits as told, with nobody else admitted meanwhile, is let in exactly when
      the time until the oldest entry leaves was a whole number of seconds or at most one. */
  lemma RetrySufficesIff(history: seq<real>, rule: Rule, now: real, retry: int)
    requires Ascending(history) && forall i :: 0 <= i < |history| ==> history[i] <= now
    requires |Window(history, now, Seconds(rule))| == rule.maxRequests > 0
    requires IsRetry(retry, WaitFor(Window(history, now, Seconds(rule)), rule, now))
    ensures var wait := WaitFor(Window(history, now, Seconds(rule)), rule, now);
            |Window(history, now + retry as real, Seconds(rule))| < rule.maxRequests
            <==> wait <= 1.0 || wait == wait.Floor as real
  {
    if Seconds(rule) <= 0.0 {
      NoWindow(history, now, Seconds(rule));
    }
    WindowShrinksIff(history, Seconds(rule), now, now + retry as real);
    WholeWait(retry, WaitFor(Window(history, now, Seconds(rule)), rule, now));
  }

  /** The time until the oldest entry of a bucket leaves the window. */
  function WaitFor(bucket: seq<real>, rule: Rule, now: real): real
    requires bucket != []
  {
    Seconds(rule) - (now - bucket[0])
  }

  /** The admissions after a verdict. */
  function After(history: seq<real>, v: Verdict, now: real): seq<real> {
    if v == Admitted then history + [now] else history
  }

  /** What check decides: admitted while the window is not full; otherwise told when to come back, which
      only an empty window, under a limit below one, makes impossible. */
  ghost predicate IsVerdict(v: Verdict, window: seq<real>, rule: Rule, now: real) {
    match v
    case Admitted => |window| < rule.maxRequests
    case Refused(retry) => window != [] && |window| >= rule.maxRequests && IsRetry(retry, WaitFor(window, rule, now))
    case IndexError => window == [] && rule.maxRequests <= 0
  }

  /** One request a minute: half a second after it is admitted a client is told 59 seconds, and coming back
      after just those it is refused again, for one more second. */
  lemma ToldTooEarly(history: seq<real>, first: real, rule: Rule, early: Verdict, late: Verdict)
    requires history == [first] && rule.maxRequests == 1 && rule.windowSeconds == 60
    requires IsVerdict(early, Window(history, first + 0.5, Seconds(rule)), rule, first + 0.5)
    requires IsVerdict(late, Window(history, first + 59.5, Seconds(rule)), rule, first + 59.5)
    ensures early == Refused(59) && late == Refused(1)
  {
    WindowOfOne(history, first, rule, first + 0.5);
    WindowOfOne(history, first, rule, first + 59.5);
    assert WaitFor(history, rule, first + 0.5) == 59.5 && WaitFor(history, rule, first + 59.5) == 0.5;
  }

  lemma WindowOfOne(history: seq<real>, first: real, rule: Rule, now: real)
    requires history == [first] && first <= now && now - first < Seconds(rule)
    ensures Window(history, now, Seconds(rule)) == history
  {
    WithinAll(history, now - Seconds(rule), now);
  }

  /** The answer by the entries still in the window: admitted while there are fewer than the rule allows, else told the
      whole seconds until the oldest is old enough to leave, and at least one. */
  lemma VerdictIs(v: Verdict, window: seq<real>, rule: Rule, now: real)
    requires IsVerdict(v, window, rule, now)
    ensures v == Admitted <==> |window| < rule.maxRequests
    ensures v == IndexError <==> window == [] && rule.maxRequests <= 0
    ensures v.Refused? ==>
              window != []
              && var left := (window[0] + rule.windowSeconds as real - now).Floor;
                 v.retryAfter == if left >= 1 then left else 1
  {
    if v.Refused? && v.retryAfter > 1 {
      var wait := WaitFor(window, rule, now);
      assert v.retryAfter as real <= wait && wait - 1.0 < v.retryAfter as real;
      assert wait == window[0] + rule.windowSeconds as real - now;
    }
  }

  /** check on one bucket: pop what has left the window, then refuse or append. */
  method CheckBucket(bucket0: seq<real>, rule: Rule, now: real) returns (v: Verdict, bucket: seq<real>)
    requires HeldOk(bucket0, now)
    ensures HeldOk(bucket, now)
    ensures bucket == After(Live(bucket0, rule, now), v, now) && IsVerdict(v, Live(bucket0, rule, now), rule, now)
  {
    bucket := DropStale(bucket0, rule, now);
    if |bucket| >= rule.maxRequests {
      if bucket == [] {
        return IndexError, bucket;
      }
      var wait := WaitFor(bucket, rule, now);
      return Refused(if wait.Floor >= 1 then wait.Floor else 1), bucket;
    }
    return Admitted, bucket + [now];
  }

  /** A bucket used with one rule only counts the window of all admissions. */
  lemma LiveIsWindow(bucket: seq<real>, history: seq<real>, rule: Rule, now: real)
    requires BucketOk(bucket, history, rule, now)
    ensures Live(bucket, rule, now) == Window(history, now, Seconds(rule))
    ensures |Live(bucket, rule, now)| <= Cap(rule)
  {
    TailWithin(bucket, history, now - Seconds(rule), now);
    NeverOverfull(history, rule, now);
  }

  lemma TailWithin(bucket: seq<real>, history: seq<real>, cutoff: real, now: real)
    requires IsTail(bucket, history, cutoff)
    ensures Within(bucket, cutoff, now) == Within(history, cutoff, now)
  {
    var gone := Gone(bucket, history, cutoff);
    WithinNone(gone, cutoff, now);
    WithinConcat(gone, bucket, cutoff, now);
  }

  /** What has been dropped from the front. */
  lemma Gone(bucket: seq<real>, history: seq<real>, cutoff: real) returns (gone: seq<real>)
    requires IsTail(bucket, history, cutoff)
    ensures history == gone + bucket && forall i :: 0 <= i < |gone| ==> gone[i] <= cutoff
  {
    gone := history[..|history| - |bucket|];
  }

  /** It keeps doing so, and the limit with it. */
  lemma CheckKeeps(bucket: seq<real>, history: seq<real>, rule: Rule, now: real, v: Verdict)
    requires BucketOk(bucket, history, rule, now) && IsVerdict(v, Live(bucket, rule, now), rule, now)
    ensures BucketOk(After(Live(bucket, rule, now), v, now), After(history, v, now), rule, now)
  {
    LiveIsWindow(bucket, history, rule, now);
    WindowIsTail(history, rule, now);
    if v == Admitted {
      AdmitOne(Live(bucket, rule, now), history, rule, now);
    }
  }

  lemma WindowIsTail(history: seq<real>, rule: Rule, now: real)
    requires HeldOk(history, now)
    ensures IsTail(Window(history, now, Seconds(rule)), history, now - Seconds(rule))
  {
    var n := CountUpTo(history, now - Seconds(rule));
    CountUpToSplits(history, now - Seconds(rule));
    WithinRun(history, now - Seconds(rule), now, n, |history|);
  }

  /** A key's bucket; where its rule is the only one of that name, with all it owes to the admissions so far. */
  ghost predicate RowOk(requests: Table, admitted: Table, rules: map<string, Rule>, latest: real, k: Key) {
    && HeldOk(Get(requests, k), latest)
    && (k.rule in rules ==> BucketOk(Get(requests, k), Get(admitted, k), rules[k.rule], latest))
  }

  ghost predicate TablesOk(requests: Table, admitted: Table, rules: map<string, Rule>, latest: real) {
    forall k: Key :: RowOk(requests, admitted, rules, latest, k)
  }

  lemma TablesLater(requests: Table, admitted: Table, rules: map<string, Rule>, latest: real, now: real)
    requires TablesOk(requests, admitted, rules, latest) && latest <= now
    ensures TablesOk(requests, admitted, rules, now)
  {
    forall k: Key ensures RowOk(requests, admitted, rules, now, k) {
      assert RowOk(requests, admitted, rules, latest, k);
      if k.rule in rules {
        BucketLater(Get(requests, k), Get(admitted, k), rules[k.rule], latest, now);
      }
    }
  }

  lemma PutGet(m: Table, k: Key, s: seq<real>)
    ensures Get(m[k := s], k) == s
    ensures forall other: Key :: other != k ==> Get(m[k := s], other) == Get(m, other)
  {
  }

  lemma TablesPut(requests: Table, admitted: Table, rules: map<string, Rule>, latest: real, k: Key, bucket: seq<real>,
                  history: seq<real>)
    requires TablesOk(requests, admitted, rules, latest) && HeldOk(bucket, latest)
    requires k.rule in rules ==> BucketOk(bucket, history, rules[k.rule], latest)
    ensures TablesOk(requests[k := bucket], admitted[k := history], rules, latest)
  {
    PutGet(requests, k, bucket);
    PutGet(admitted, k, history);
    var requests', admitted' := requests[k := bucket], admitted[k := history];
    forall other: Key ensures RowOk(requests', admitted', rules, latest, other) {
      assert RowOk(requests, admitted, rules, latest, other);
    }
  }

  /** What check promises: what is live in the bucket decides, the bucket becomes that and what is admitted, and no
      other key is touched. */
  ghost predicate CheckResult(requests: Table, admitted: Table, requests': Table, admitted': Table, k: Key, rule: Rule,
                              now: real, v: Verdict)
  {
    var live := Live(Get(requests, k), rule, now);
    && IsVerdict(v, live, rule, now)
    && Get(requests', k) == After(live, v, now)
    && Get(admitted', k) == After(Get(admitted, k), v, now)
    && (forall other: Key :: other != k ==> Get(requests', other) == Get(requests, other))
    && (forall other: Key :: other != k ==> Get(admitted', other) == Get(admitted, other))
  }

  /** One check keeps the tables in order and does what it promises. */
  lemma CheckStep(requests: Table, admitted: Table, rules: map<string, Rule>, now: real, k: Key, rule: Rule, v: Verdict)
    requires TablesOk(requests, admitted, rules, now) && (k.rule in rules ==> rules[k.rule] == rule)
    requires IsVerdict(v, Live(Get(requests, k), rule, now), rule, now)
    requires HeldOk(After(Live(Get(requests, k), rule, now), v, now), now)
    ensures var bucket, after := After(Live(Get(requests, k), rule, now), v, now), After(Get(admitted, k), v, now);
            && TablesOk(requests[k := bucket], admitted[k := after], rules, now)
            && CheckResult(requests, admitted, requests[k := bucket], admitted[k := after], k, rule, now, v)
  {
    var bucket, after := After(Live(Get(requests, k), rule, now), v, now), After(Get(admitted, k), v, now);
    assert RowOk(requests, admitted, rules, now, k);
    if k.rule in rules {
      CheckKeeps(Get(requests, k), Get(admitted, k), rule, now, v);
    }
    TablesPut(requests, admitted, rules, now, k, bucket, after);
    PutGet(requests, k, bucket);
    PutGet(admitted, k, after);
  }

  /** With a window of some length the bucket left behind is the window itself. */
  lemma BucketIsNewWindow(history: seq<real>, v: Verdict, rule: Rule, now: real)
    requires rule.windowSeconds > 0
    ensures After(Window(history, now, Seconds(rule)), v, now) == Window(After(history, v, now), now, Seconds(rule))
  {
    assert (history + [now])[..|history|] == history;
  }

  /** rules names the rules that are each the only one of their name. */
  class RateLimiter {
    var requests: Table
    ghost var admitted: Table
    ghost var latest: real
    ghost const rules: map<string, Rule>

    ghost predicate Valid()
      reads this
    {
      TablesOk(requests, admitted, rules, latest)
    }

    constructor (ghost rules: map<string, Rule>, ghost now: real)
      ensures Valid() && this.rules == rules && latest == now && admitted == map[]
    {
      this.rules := rules;
      requests := map[];
      admitted := map[];
      latest := now;
    }

    /** check, at clock reading now. */
    method Check(rule: Rule, key: string, now: real) returns (v: Verdict)
      requires Valid() && latest <= now && (rule.name in rules ==> rules[rule.name] == rule)
      modifies this
      ensures Valid() && latest == now
      ensures CheckResult(old(requests), old(admitted), requests, admitted, Key(rule.name, key), rule, now, v)
      ensures var held := if Key(rule.name, key) in old(requests) then old(requests)[Key(rule.name, key)] else [];
              var live := Within(held, now - rule.windowSeconds as real, now);
              && (v == Admitted <==> |live| < rule.maxRequests) && Key(rule.name, key) in requests
              && requests[Key(rule.name, key)] == (if v == Admitted then live + [now] else live)
              && (v.Refused? ==>
                    live != []
                    && var left := (live[0] + rule.windowSeconds as real - now).Floor;
                       v.retryAfter == if left >= 1 then left else 1)
      ensures rule.name in rules ==>
                Live(Get(old(requests), Key(rule.name, key)), rule, now)
                == Window(Get(old(admitted), Key(rule.name, key)), now, Seconds(rule))
    {
      var bucketKey := Key(rule.name, key);
      TablesLater(requests, admitted, rules, latest, now);
      assert RowOk(requests, admitted, rules, now, bucketKey);
      if rule.name in rules {
        LiveIsWindow(Get(requests, bucketKey), Get(admitted, bucketKey), rule, now);
      }
      var bucket;
      v, bucket := CheckBucket(if bucketKey in requests then requests[bucketKey] else [], rule, now);
      CheckStep(requests, admitted, rules, now, bucketKey, rule, v);
      VerdictIs(v, Live(Get(requests, bucketKey), rule, now), rule, now);
      requests := requests[bucketKey := bucket];
      admitted := admitted[bucketKey := After(Get(admitted, bucketKey), v, now)];
      latest := now;
    }
  }

  /** The last entries, nothing younger than the cutoff left out. */
  ghost predicate IsTail(bucket: seq<real>, history: seq<real>, cutoff: real) {
    && |bucket| <= |history| && bucket == history[|history| - |bucket|..]
    && forall i :: 0 <= i < |history| - |bucket| ==> history[i] <= cutoff
  }

  lemma PopTail(bucket: seq<real>, history: seq<real>, cutoff: real)
    requires IsTail(bucket, history, cutoff) && bucket != [] && bucket[0] <= cutoff
    ensures IsTail(bucket[1..], history, cutoff)
  {
    assert history[|history| - |bucket|] == bucket[0];
  }

  /** The while loop of check: pop what has left the window. */
  method DropStale(bucket0: seq<real>, rule: Rule, now: real) returns (bucket: seq<real>)
    requires HeldOk(bucket0, now)
    ensures bucket == Live(bucket0, rule, now) && HeldOk(bucket, now)
  {
    bucket := bucket0;
    var cutoff := now - Seconds(rule);
    while bucket != [] && bucket[0] <= cutoff
      invariant IsTail(bucket, bucket0, cutoff)
      decreases |bucket|
    {
      PopTail(bucket, bucket0, cutoff);
      bucket := bucket[1..];
    }
    BucketIsWindow(bucket, bucket0, cutoff, now);
  }

  lemma AdmitOne(bucket: seq<real>, history: seq<real>, rule: Rule, now: real)
    requires BucketOk(bucket, history, rule, now) && |bucket| < rule.maxRequests
    requires bucket == Window(history, now, Seconds(rule))
    ensures BucketOk(bucket + [now], history + [now], rule, now)
  {
    SpreadSnoc(history, Cap(rule), Seconds(rule), now);
  }

  /** In every run, no window of any key ever holds more admissions than its rule allows. */
  lemma LimitKept(limiter: RateLimiter, k: Key, t: real)
    requires limiter.Valid() && k.rule in limiter.rules
    ensures |Window(Get(limiter.admitted, k), t, Seconds(limiter.rules[k.rule]))| <= Cap(limiter.rules[k.rule])
  {
    var rule := limiter.rules[k.rule];
    assert RowOk(limiter.requests, limiter.admitted, limiter.rules, limiter.latest, k);
    SpreadBounds(Get(limiter.admitted, k), Cap(rule), Seconds(rule), t);
  }
}
