/** The consumer thread of the logger: pop an entry, build its message once,
    and push it to the collector until a push returns normally, sleeping one
    second after every push that raised. */
module Delivery {
  import opened Wrappers
  import opened Json
  import opened Translation

  /** The HTTP response of one POST. */
  datatype Response = Response(code: string, body: string)

  /** What one call of `push_zipkin_message` meets: an exception anywhere in
      building, serialising or sending the request, or a response. */
  datatype Attempt = Raised | Responded(response: Response)

  /** How `push_zipkin_message` ends: it raises, or it returns normally,
      having printed a warning when the status was not 202. */
  datatype PushResult = PushRaised | PushReturned(warned: bool)

  const Accepted202: string := "202"

  /** `n` copies of `x`. */
  function Repeat<T>(x: T, n: nat): (r: seq<T>)
    ensures |r| == n
  {
    if n == 0 then [] else Repeat(x, n - 1) + [x]
  }

  /** Every element of `Repeat(x, n)` is `x`. */
  lemma {:induction false} RepeatAt<T>(x: T, n: nat, i: nat)
    requires i < n
    ensures Repeat(x, n)[i] == x
  {
    if i < n - 1 {
      RepeatAt(x, n - 1, i);
    }
  }

  /** `push_zipkin_message`: every response returns normally, whatever its
      status; a status other than 202 is only reported. */
  function PushZipkinMessage(a: Attempt): (r: PushResult)
    ensures r.PushReturned? <==> a.Responded?
    ensures r.PushReturned? ==> (r.warned <==> a.response.code != Accepted202)
  {
    match a
    case Raised => PushRaised
    case Responded(response) => PushReturned(response.code != Accepted202)
  }

  /** The position of the first response at or after `at`, or the end of
      the outcomes when every remaining attempt raises. */
  function NextReturn(attempts: seq<Attempt>, at: nat): (k: nat)
    requires at <= |attempts|
    ensures at <= k <= |attempts|
    ensures k < |attempts| ==> attempts[k].Responded?
    decreases |attempts| - at
  {
    if at == |attempts| || attempts[at].Responded? then at
    else NextReturn(attempts, at + 1)
  }

  /** Every attempt from `at` up to the next response raised. */
  lemma {:induction false} BeforeNextReturn(attempts: seq<Attempt>, at: nat, j: nat)
    requires at <= |attempts| && at <= j < NextReturn(attempts, at)
    ensures attempts[j].Raised?
    decreases j - at
  {
    if at < j {
      BeforeNextReturn(attempts, at + 1, j);
    }
  }

  /** `NextReturn` is the only position with raised attempts between `at`
      and it, and a response (or the end of the outcomes) at it. */
  lemma {:induction false} NextReturnUnique(attempts: seq<Attempt>, at: nat, k: nat)
    requires at <= k <= |attempts|
    requires forall j :: at <= j < k ==> attempts[j].Raised?
    requires k < |attempts| ==> attempts[k].Responded?
    ensures NextReturn(attempts, at) == k
    decreases k - at
  {
    if at < k {
      NextReturnUnique(attempts, at + 1, k);
    }
  }

  /** The inner `loop do ... end` of `process_queue` for one message. The
      collector's outcomes for successive pushes are `attempts`, of which the
      first `at` were met by earlier messages. `posted` lists the argument of
      every push, `sleeps` counts the one-second sleeps, and `acked` tells
      whether a push returned (otherwise the outcomes ran out while the loop
      was still retrying). */
  method RetryPush(message: Message, attempts: seq<Attempt>, at: nat)
    returns (posted: seq<Message>, sleeps: nat, acked: bool)
    requires at <= |attempts|
    ensures posted == Repeat(message, |posted|)
    ensures at + sleeps == NextReturn(attempts, at)
    ensures acked <==> at + sleeps < |attempts|
    ensures |posted| == if acked then sleeps + 1 else sleeps
  {
    posted, sleeps, acked := [], 0, false;
    while at + sleeps < |attempts|
      invariant at + sleeps <= |attempts|
      invariant posted == Repeat(message, sleeps)
      invariant forall j :: at <= j < at + sleeps ==> attempts[j].Raised?
      decreases |attempts| - sleeps
    {
      posted := posted + [message];
      var result := PushZipkinMessage(attempts[at + sleeps]);
      if result.PushReturned? {
        acked := true;
        break;
      }
      sleeps := sleeps + 1;
    }
    NextReturnUnique(attempts, at, at + sleeps);
  }

  /** Why the consumer is no longer making progress at the end of a run. */
  datatype Stop =
    | Blocked                // waiting in `queue.pop` on an empty queue
    | Retrying               // still retrying its entry when the outcomes ran out
    | Aborted(fault: Fault)  // translation raised; the process aborts

  /** One call of `push_zipkin_message`: the message, and the queue position
      of the entry it was built from. */
  datatype Post = Post(entry: nat, message: Message)

  /** A run of the consumer: how many entries it popped, every push in call
      order, how many times it slept, and where it stopped. */
  datatype ConsumerRun = ConsumerRun(popped: nat, posted: seq<Post>, sleeps: nat, stop: Stop)

  /** `r` preceded by `popped` pops, the pushes `posted` and `sleeps` sleeps. */
  function After(popped: nat, posted: seq<Post>, sleeps: nat, r: ConsumerRun): ConsumerRun {
    ConsumerRun(popped + r.popped, posted + r.posted, sleeps + r.sleeps, r.stop)
  }

  /** The span construction applied to each popped entry; in the logger it
      is `e => Translate(e, lib)` for the runtime's conversions `lib`. */
  type Translator = Json -> Result<Message, Fault>

  /** The consumer loop as a function of the queue contents, of which the
      entries before `from` are gone, and of the collector's outcomes, of
      which those before `at` are used: the head entry is popped and
      translated, its message is pushed until a push returns, and only then
      is the next entry popped. */
  function Consume(queue: seq<Json>, from: nat, attempts: seq<Attempt>, at: nat, translate: Translator): ConsumerRun
    requires from <= |queue| && at <= |attempts|
    decreases |queue| - from
  {
    if from == |queue| then ConsumerRun(0, [], 0, Blocked)
    else
      match translate(queue[from])
      case Failure(fault) => ConsumerRun(1, [], 0, Aborted(fault))
      case Success(message) =>
        var k := NextReturn(attempts, at);
        var post := Post(from, message);
        if k == |attempts| then ConsumerRun(1, Repeat(post, k - at), k - at, Retrying)
        else After(1, Repeat(post, k - at + 1), k - at, Consume(queue, from + 1, attempts, k + 1, translate))
  }

  /** One pass of the outer loop of `process_queue`: pop the entry at
      `from`, build its message, and push it until a push returns. `stop`
      says why the consumer stops inside this pass, if it does; otherwise
      the pass used `s + 1` outcomes and the run goes on with the next entry. */
  method ServeEntry(queue: seq<Json>, from: nat, attempts: seq<Attempt>, at: nat, translate: Translator)
    returns (posts: seq<Post>, s: nat, stop: Option<Stop>)
    requires from < |queue| && at <= |attempts|
    ensures stop.Some? ==> Consume(queue, from, attempts, at, translate) == ConsumerRun(1, posts, s, stop.value)
    ensures stop.None? ==>
              && at + s < |attempts|
              && Consume(queue, from, attempts, at, translate)
                 == After(1, posts, s, Consume(queue, from + 1, attempts, at + s + 1, translate))
  {
    var nginxLogEntry := queue[from];  // queue.pop
    var translated := translate(nginxLogEntry);
    if translated.Failure? {
      return [], 0, Some(Aborted(translated.error));
    }
    var message := translated.value;
    var p, sleeps, acked := RetryPush(message, attempts, at);
    posts, s := Repeat(Post(from, message), |p|), sleeps;
    if !acked {
      return posts, s, Some(Retrying);
    }
    stop := None;
  }

  /** `process_queue` over a queue that holds `queue` and receives nothing
      more, with the collector producing `attempts`. */
  method ProcessQueue(queue: seq<Json>, attempts: seq<Attempt>, translate: Translator) returns (run: ConsumerRun)
    ensures run == Consume(queue, 0, attempts, 0, translate)
  {
    var popped: nat, posted: seq<Post>, sleeps: nat, used: nat := 0, [], 0, 0;
    ghost var whole := Consume(queue, 0, attempts, 0, translate);
    assert posted + whole.posted == whole.posted;
    while true
      invariant popped <= |queue| && used <= |attempts|
      invariant whole == After(popped, posted, sleeps, Consume(queue, popped, attempts, used, translate))
      decreases |queue| - popped
    {
      if popped == |queue| {
        assert posted + [] == posted;
        return ConsumerRun(popped, posted, sleeps, Blocked);
      }
      var posts, s, stop := ServeEntry(queue, popped, attempts, used, translate);
      if stop.Some? {
        return ConsumerRun(popped + 1, posted + posts, sleeps + s, stop.value);
      }
      ghost var rest := Consume(queue, popped + 1, attempts, used + s + 1, translate);
      AfterAfter(popped, posted, sleeps, 1, posts, s, rest);
      assert whole == After(popped + 1, posted + posts, sleeps + s, rest);
      popped, posted, sleeps, used := popped + 1, posted + posts, sleeps + s, used + s + 1;
    }
  }

  /** Prefixing a run twice is prefixing it once with the sums. */
  lemma AfterAfter(p1: nat, ps1: seq<Post>, s1: nat, p2: nat, ps2: seq<Post>, s2: nat, r: ConsumerRun)
    ensures After(p1, ps1, s1, After(p2, ps2, s2, r)) == After(p1 + p2, ps1 + ps2, s1 + s2, r)
  {
    assert ps1 + (ps2 + r.posted) == (ps1 + ps2) + r.posted;
  }

  /** A push that meets `k` raised attempts and then a response, whatever
      its status, is made `k + 1` times with the same message and `k` sleeps;
      then, and only then, the next entry is popped. */
  lemma RetryThenAdvance(queue: seq<Json>, from: nat, attempts: seq<Attempt>, at: nat, k: nat, translate: Translator)
    requires from < |queue| && at + k < |attempts|
    requires translate(queue[from]).Success?
    requires forall j :: at <= j < at + k ==> attempts[j].Raised?
    requires attempts[at + k].Responded?
    ensures Consume(queue, from, attempts, at, translate) ==
            After(1, Repeat(Post(from, translate(queue[from]).value), k + 1), k,
                  Consume(queue, from + 1, attempts, at + k + 1, translate))
  {
    NextReturnUnique(attempts, at, at + k);
  }

  /** While the collector keeps raising, the consumer stays on its entry:
      nothing behind it is popped, and every push carries its message. */
  lemma HeadOfLineBlocking(queue: seq<Json>, from: nat, attempts: seq<Attempt>, at: nat, translate: Translator)
    requires from < |queue| && at <= |attempts|
    requires translate(queue[from]).Success?
    requires forall j :: at <= j < |attempts| ==> attempts[j].Raised?
    ensures Consume(queue, from, attempts, at, translate) ==
            ConsumerRun(1, Repeat(Post(from, translate(queue[from]).value), |attempts| - at), |attempts| - at, Retrying)
  {
    NextReturnUnique(attempts, at, |attempts|);
  }

  /** How many of the outcomes from position `lo` up to `hi` are exceptions. */
  function Raises(attempts: seq<Attempt>, lo: nat, hi: nat): nat
    requires lo <= hi <= |attempts|
    decreases hi - lo
  {
    if lo == hi then 0 else (if attempts[lo].Raised? then 1 else 0) + Raises(attempts, lo + 1, hi)
  }

  lemma {:induction false} RaisesSplit(attempts: seq<Attempt>, lo: nat, mid: nat, hi: nat)
    requires lo <= mid <= hi <= |attempts|
    ensures Raises(attempts, lo, hi) == Raises(attempts, lo, mid) + Raises(attempts, mid, hi)
    decreases mid - lo
  {
    if lo < mid {
      RaisesSplit(attempts, lo + 1, mid, hi);
    }
  }

  lemma {:induction false} RaisesAll(attempts: seq<Attempt>, lo: nat, hi: nat)
    requires lo <= hi <= |attempts|
    requires forall j :: lo <= j < hi ==> attempts[j].Raised?
    ensures Raises(attempts, lo, hi) == hi - lo
    decreases hi - lo
  {
    if lo < hi {
      RaisesAll(attempts, lo + 1, hi);
    }
  }

  /** The outcomes from `at` up to the next response all raised. */
  lemma RaisedUntilNextReturn(attempts: seq<Attempt>, at: nat)
    requires at <= |attempts|
    ensures forall j :: at <= j < NextReturn(attempts, at) ==> attempts[j].Raised?
  {
    forall j | at <= j < NextReturn(attempts, at) {
      BeforeNextReturn(attempts, at, j);
    }
  }

  /** What a run `r` from `from` and `at` adds up to: every push uses one
      outcome of the collector, every entry popped before the last took
      exactly one push that returned, and the consumer stops on an empty
      queue, on the entry it is still retrying once the outcomes run out, or
      on the entry whose translation raised. */
  predicate Accounted(queue: seq<Json>, from: nat, attempts: seq<Attempt>, at: nat, translate: Translator, r: ConsumerRun) {
    && from + r.popped <= |queue|
    && (r.popped == 0 <==> from == |queue|)
    && at + |r.posted| <= |attempts|
    && (r.stop.Blocked? ==> from + r.popped == |queue| && |r.posted| == r.sleeps + r.popped)
    && (!r.stop.Blocked? ==> |r.posted| == r.sleeps + r.popped - 1)
    && (r.stop.Retrying? ==> at + |r.posted| == |attempts|)
    && (r.stop.Aborted? ==> 0 < r.popped && translate(queue[from + r.popped - 1]) == Failure(r.stop.fault))
  }

  /** Acknowledging the entry at `from` after `s` raised pushes keeps the
      account of the rest of the run. */
  lemma AccountedAfterAck(queue: seq<Json>, from: nat, attempts: seq<Attempt>, at: nat, s: nat, translate: Translator,
                          head: seq<Post>, rest: ConsumerRun)
    requires from < |queue| && |head| == s + 1
    requires Accounted(queue, from + 1, attempts, at + s + 1, translate, rest)
    ensures Accounted(queue, from, attempts, at, translate, After(1, head, s, rest))
  {
  }

  lemma {:induction false} ConsumeAccounting(queue: seq<Json>, from: nat, attempts: seq<Attempt>, at: nat, translate: Translator)
    requires from <= |queue| && at <= |attempts|
    ensures Accounted(queue, from, attempts, at, translate, Consume(queue, from, attempts, at, translate))
    decreases |queue| - from
  {
    if from < |queue| && translate(queue[from]).Success? && NextReturn(attempts, at) < |attempts| {
      ConsumeAccounting(queue, from + 1, attempts, NextReturn(attempts, at) + 1, translate);
      AccountedStep(queue, from, attempts, at, translate);
    }
  }

  /** The step of `ConsumeAccounting` for an entry that is acknowledged. */
  lemma AccountedStep(queue: seq<Json>, from: nat, attempts: seq<Attempt>, at: nat, translate: Translator)
    requires from < |queue| && at <= |attempts| && translate(queue[from]).Success?
    requires NextReturn(attempts, at) < |attempts|
    requires Accounted(queue, from + 1, attempts, NextReturn(attempts, at) + 1, translate,
                       Consume(queue, from + 1, attempts, NextReturn(attempts, at) + 1, translate))
    ensures Accounted(queue, from, attempts, at, translate, Consume(queue, from, attempts, at, translate))
  {
    var k := NextReturn(attempts, at);
    var post := Post(from, translate(queue[from]).value);
    var rest := Consume(queue, from + 1, attempts, k + 1, translate);
    assert Consume(queue, from, attempts, at, translate) == After(1, Repeat(post, k - at + 1), k - at, rest);
    AccountedAfterAck(queue, from, attempts, at, k - at, translate, Repeat(post, k - at + 1), rest);
  }


  /** The sleeps of a run `r` from `at` are exactly its pushes that raised. */
  predicate SleepsMatch(attempts: seq<Attempt>, at: nat, r: ConsumerRun) {
    at + |r.posted| <= |attempts| && r.sleeps == Raises(attempts, at, at + |r.posted|)
  }

  lemma SleepsAfterAck(attempts: seq<Attempt>, at: nat, s: nat, head: seq<Post>, rest: ConsumerRun)
    requires |head| == s + 1 && at + s < |attempts|
    requires forall j :: at <= j < at + s ==> attempts[j].Raised?
    requires attempts[at + s].Responded?
    requires SleepsMatch(attempts, at + s + 1, rest)
    ensures SleepsMatch(attempts, at, After(1, head, s, rest))
  {
    RaisesAll(attempts, at, at + s);
    RaisesSplit(attempts, at, at + s, at + s + 1);
    RaisesSplit(attempts, at, at + s + 1, at + s + 1 + |rest.posted|);
  }

  /** The consumer sleeps once after every push that raised, and never
      otherwise. */
  lemma {:induction false} ConsumeSleeps(queue: seq<Json>, from: nat, attempts: seq<Attempt>, at: nat, translate: Translator)
    requires from <= |queue| && at <= |attempts|
    ensures SleepsMatch(attempts, at, Consume(queue, from, attempts, at, translate))
    decreases |queue| - from
  {
    if from < |queue| && translate(queue[from]).Success? {
      if NextReturn(attempts, at) == |attempts| {
        SleepsRetrying(queue, from, attempts, at, translate);
      } else {
        ConsumeSleeps(queue, from + 1, attempts, NextReturn(attempts, at) + 1, translate);
        SleepsStep(queue, from, attempts, at, translate);
      }
    }
  }

  /** The step of `ConsumeSleeps` for an entry still retried when the
      outcomes run out. */
  lemma SleepsRetrying(queue: seq<Json>, from: nat, attempts: seq<Attempt>, at: nat, translate: Translator)
    requires from < |queue| && at <= |attempts| && translate(queue[from]).Success?
    requires NextReturn(attempts, at) == |attempts|
    ensures SleepsMatch(attempts, at, Consume(queue, from, attempts, at, translate))
  {
    var post := Post(from, translate(queue[from]).value);
    assert Consume(queue, from, attempts, at, translate) ==
           ConsumerRun(1, Repeat(post, |attempts| - at), |attempts| - at, Retrying);
    RaisedUntilNextReturn(attempts, at);
    RaisesAll(attempts, at, |attempts|);
  }

  /** The step of `ConsumeSleeps` for an entry that is acknowledged. */
  lemma SleepsStep(queue: seq<Json>, from: nat, attempts: seq<Attempt>, at: nat, translate: Translator)
    requires from < |queue| && at <= |attempts| && translate(queue[from]).Success?
    requires NextReturn(attempts, at) < |attempts|
    requires SleepsMatch(attempts, NextReturn(attempts, at) + 1,
                         Consume(queue, from + 1, attempts, NextReturn(attempts, at) + 1, translate))
    ensures SleepsMatch(attempts, at, Consume(queue, from, attempts, at, translate))
  {
    var k := NextReturn(attempts, at);
    var post := Post(from, translate(queue[from]).value);
    var rest := Consume(queue, from + 1, attempts, k + 1, translate);
    assert Consume(queue, from, attempts, at, translate) == After(1, Repeat(post, k - at + 1), k - at, rest);
    RaisedUntilNextReturn(attempts, at);
    SleepsAfterAck(attempts, at, k - at, Repeat(post, k - at + 1), rest);
  }


  /** By how many entries the consumer moves on after a push meets `a`. */
  function Advance(a: Attempt): nat {
    if a.Responded? then 1 else 0
  }

  /** The pushes of a run `r` from `from` and `at` go through the entries
      one by one: the first push is for the entry at `from`, a push that
      raised is followed by a push for the same entry, a push that returned
      by a push for the next one, and the last push is for the last popped
      entry, or for the one before it when that entry aborted. A run
      without pushes popped nothing or only the entry it stopped on. */
  predicate PushesAdvance(from: nat, attempts: seq<Attempt>, at: nat, r: ConsumerRun) {
    && at + |r.posted| <= |attempts|
    && (|r.posted| == 0 ==> r.popped == (if r.stop.Blocked? then 0 else 1))
    && (|r.posted| > 0 ==> r.posted[0].entry == from)
    && (forall i :: 0 <= i < |r.posted| - 1 ==>
          r.posted[i + 1].entry == r.posted[i].entry + Advance(attempts[at + i]))
    && (|r.posted| > 0 ==>
          r.posted[|r.posted| - 1].entry + Advance(attempts[at + |r.posted| - 1])
          == from + r.popped - (if r.stop.Blocked? then 0 else 1))
  }

  /** `s` raised pushes and one that returned, all for the entry at `from`,
      followed by a run from the next entry. */
  lemma AdvanceAfterAck(from: nat, attempts: seq<Attempt>, at: nat, s: nat, post: Post, rest: ConsumerRun)
    requires post.entry == from && at + s < |attempts|
    requires forall j :: at <= j < at + s ==> attempts[j].Raised?
    requires attempts[at + s].Responded?
    requires PushesAdvance(from + 1, attempts, at + s + 1, rest)
    ensures PushesAdvance(from, attempts, at, After(1, Repeat(post, s + 1), s, rest))
  {
    var head := Repeat(post, s + 1);
    var posted := head + rest.posted;
    RepeatAt(post, s + 1, 0);
    RepeatAt(post, s + 1, s);
    forall i | 0 <= i < |posted| - 1
      ensures posted[i + 1].entry == posted[i].entry + Advance(attempts[at + i])
    {
      if i < s {
        RepeatAt(post, s + 1, i);
        RepeatAt(post, s + 1, i + 1);
      } else if i == s {
        assert posted[i + 1] == rest.posted[0];
      } else {
        assert posted[i] == rest.posted[i - s - 1] && posted[i + 1] == rest.posted[i - s];
        assert at + i == at + s + 1 + (i - s - 1);
      }
    }
    if |rest.posted| > 0 {
      assert posted[|posted| - 1] == rest.posted[|rest.posted| - 1];
    }
  }

  /** `AdvanceAfterAck` for the pushes up to the next response. */
  lemma AdvanceAfterReturn(from: nat, attempts: seq<Attempt>, at: nat, post: Post, rest: ConsumerRun)
    requires post.entry == from && at <= |attempts| && NextReturn(attempts, at) < |attempts|
    requires PushesAdvance(from + 1, attempts, NextReturn(attempts, at) + 1, rest)
    ensures var s := NextReturn(attempts, at) - at;
            PushesAdvance(from, attempts, at, After(1, Repeat(post, s + 1), s, rest))
  {
    RaisedUntilNextReturn(attempts, at);
    AdvanceAfterAck(from, attempts, at, NextReturn(attempts, at) - at, post, rest);
  }

  /** A run still retrying its first entry when the outcomes run out. */
  lemma AdvanceRetrying(from: nat, attempts: seq<Attempt>, at: nat, post: Post)
    requires post.entry == from && at <= |attempts|
    requires forall j :: at <= j < |attempts| ==> attempts[j].Raised?
    ensures PushesAdvance(from, attempts, at, ConsumerRun(1, Repeat(post, |attempts| - at), |attempts| - at, Retrying))
  {
    var n := |attempts| - at;
    if n > 0 {
      RepeatAt(post, n, 0);
      RepeatAt(post, n, n - 1);
      forall i | 0 <= i < n - 1
        ensures Repeat(post, n)[i + 1].entry == Repeat(post, n)[i].entry + Advance(attempts[at + i])
      {
        RepeatAt(post, n, i);
        RepeatAt(post, n, i + 1);
      }
    }
  }

  /** The step of `ConsumeNoSkip` for an entry that is acknowledged. */
  lemma NoSkipAfterAck(queue: seq<Json>, from: nat, attempts: seq<Attempt>, at: nat, translate: Translator)
    requires from < |queue| && at <= |attempts| && translate(queue[from]).Success?
    requires NextReturn(attempts, at) < |attempts|
    requires PushesAdvance(from + 1, attempts, NextReturn(attempts, at) + 1,
                           Consume(queue, from + 1, attempts, NextReturn(attempts, at) + 1, translate))
    ensures PushesAdvance(from, attempts, at, Consume(queue, from, attempts, at, translate))
  {
    var k := NextReturn(attempts, at);
    var post := Post(from, translate(queue[from]).value);
    var rest := Consume(queue, from + 1, attempts, k + 1, translate);
    assert Consume(queue, from, attempts, at, translate) == After(1, Repeat(post, k - at + 1), k - at, rest);
    AdvanceAfterReturn(from, attempts, at, post, rest);
  }

  /** The step of `ConsumeNoSkip` for an entry still retried when the
      outcomes run out. */
  lemma NoSkipRetrying(queue: seq<Json>, from: nat, attempts: seq<Attempt>, at: nat, translate: Translator)
    requires from < |queue| && at <= |attempts| && translate(queue[from]).Success?
    requires NextReturn(attempts, at) == |attempts|
    ensures PushesAdvance(from, attempts, at, Consume(queue, from, attempts, at, translate))
  {
    var post := Post(from, translate(queue[from]).value);
    assert Consume(queue, from, attempts, at, translate) ==
           ConsumerRun(1, Repeat(post, |attempts| - at), |attempts| - at, Retrying);
    RaisedUntilNextReturn(attempts, at);
    AdvanceRetrying(from, attempts, at, post);
  }

  /** No popped entry is skipped: the consumer moves to the next entry only
      on a push that returned, and pushes every entry it popped, except the
      one whose translation raised, until a push returns or the outcomes run
      out. */
  lemma {:induction false} ConsumeNoSkip(queue: seq<Json>, from: nat, attempts: seq<Attempt>, at: nat, translate: Translator)
    requires from <= |queue| && at <= |attempts|
    ensures PushesAdvance(from, attempts, at, Consume(queue, from, attempts, at, translate))
    decreases |queue| - from
  {
    if from < |queue| && translate(queue[from]).Success? {
      if NextReturn(attempts, at) == |attempts| {
        NoSkipRetrying(queue, from, attempts, at, translate);
      } else {
        ConsumeNoSkip(queue, from + 1, attempts, NextReturn(attempts, at) + 1, translate);
        NoSkipAfterAck(queue, from, attempts, at, translate);
      }
    }
  }

  /** Each push carries the message built from an entry at position `from`
      or later and before `to`. */
  predicate BuiltFrom(queue: seq<Json>, from: nat, to: nat, translate: Translator, posted: seq<Post>) {
    forall i :: 0 <= i < |posted| ==>
      && from <= posted[i].entry < to
      && posted[i].entry < |queue|
      && translate(queue[posted[i].entry]) == Success(posted[i].message)
  }

  /** The entries of successive pushes never go back. */
  predicate InQueueOrder(posted: seq<Post>) {
    forall i, j :: 0 <= i <= j < |posted| ==> posted[i].entry <= posted[j].entry
  }

  /** The pushes for the entry at `from`, followed by pushes built from
      later entries, are built from `from` on. */
  lemma HeadThenRestBuilt(queue: seq<Json>, from: nat, to: nat, translate: Translator, n: nat, rest: seq<Post>)
    requires from < |queue| && from < to && translate(queue[from]).Success?
    requires BuiltFrom(queue, from + 1, to, translate, rest)
    ensures BuiltFrom(queue, from, to, translate, Repeat(Post(from, translate(queue[from]).value), n) + rest)
  {
    var head := Repeat(Post(from, translate(queue[from]).value), n);
    var posted := head + rest;
    forall i | 0 <= i < |posted|
      ensures from <= posted[i].entry < to && posted[i].entry < |queue|
      ensures translate(queue[posted[i].entry]) == Success(posted[i].message)
    {
      if n <= i {
        assert posted[i] == rest[i - n];
      } else {
        RepeatAt(Post(from, translate(queue[from]).value), n, i);
      }
    }
  }

  /** The pushes for one entry, followed by pushes in queue order for
      later entries only, are in queue order. */
  lemma HeadThenRestOrdered(post: Post, n: nat, rest: seq<Post>)
    requires InQueueOrder(rest)
    requires forall i :: 0 <= i < |rest| ==> post.entry < rest[i].entry
    ensures InQueueOrder(Repeat(post, n) + rest)
  {
    var posted := Repeat(post, n) + rest;
    forall i | 0 <= i < |posted|
      ensures i < n ==> posted[i].entry == post.entry
      ensures n <= i ==> post.entry < posted[i].entry
    {
      if n <= i {
        assert posted[i] == rest[i - n];
      } else {
        RepeatAt(post, n, i);
      }
    }
  }

  /** Each push of a run carries the message built from an entry the run
      popped. */
  lemma {:induction false} ConsumeBuiltFrom(queue: seq<Json>, from: nat, attempts: seq<Attempt>, at: nat, translate: Translator)
    requires from <= |queue| && at <= |attempts|
    ensures var r := Consume(queue, from, attempts, at, translate);
            BuiltFrom(queue, from, from + r.popped, translate, r.posted)
    decreases |queue| - from
  {
    if from < |queue| && translate(queue[from]).Success? {
      if NextReturn(attempts, at) == |attempts| {
        BuiltRetrying(queue, from, attempts, at, translate);
      } else {
        ConsumeBuiltFrom(queue, from + 1, attempts, NextReturn(attempts, at) + 1, translate);
        BuiltStep(queue, from, attempts, at, translate);
      }
    }
  }

  /** The step of `ConsumeBuiltFrom` for an entry still retried when the
      outcomes run out. */
  lemma BuiltRetrying(queue: seq<Json>, from: nat, attempts: seq<Attempt>, at: nat, translate: Translator)
    requires from < |queue| && at <= |attempts| && translate(queue[from]).Success?
    requires NextReturn(attempts, at) == |attempts|
    ensures var r := Consume(queue, from, attempts, at, translate);
            BuiltFrom(queue, from, from + r.popped, translate, r.posted)
  {
    var post := Post(from, translate(queue[from]).value);
    assert Consume(queue, from, attempts, at, translate) ==
           ConsumerRun(1, Repeat(post, |attempts| - at) + [], |attempts| - at, Retrying);
    HeadThenRestBuilt(queue, from, from + 1, translate, |attempts| - at, []);
  }

  /** The step of `ConsumeBuiltFrom` for an entry that is acknowledged. */
  lemma BuiltStep(queue: seq<Json>, from: nat, attempts: seq<Attempt>, at: nat, translate: Translator)
    requires from < |queue| && at <= |attempts| && translate(queue[from]).Success?
    requires NextReturn(attempts, at) < |attempts|
    requires var rest := Consume(queue, from + 1, attempts, NextReturn(attempts, at) + 1, translate);
             BuiltFrom(queue, from + 1, from + 1 + rest.popped, translate, rest.posted)
    ensures var r := Consume(queue, from, attempts, at, translate);
            BuiltFrom(queue, from, from + r.popped, translate, r.posted)
  {
    var k := NextReturn(attempts, at);
    var post := Post(from, translate(queue[from]).value);
    var rest := Consume(queue, from + 1, attempts, k + 1, translate);
    assert Consume(queue, from, attempts, at, translate) == After(1, Repeat(post, k - at + 1), k - at, rest);
    HeadThenRestBuilt(queue, from, from + 1 + rest.popped, translate, k - at + 1, rest.posted);
  }


  /** The entries of successive pushes never go back: no entry is pushed
      after a later one. */
  lemma {:induction false} ConsumeInOrder(queue: seq<Json>, from: nat, attempts: seq<Attempt>, at: nat, translate: Translator)
    requires from <= |queue| && at <= |attempts|
    ensures InQueueOrder(Consume(queue, from, attempts, at, translate).posted)
    decreases |queue| - from
  {
    if from < |queue| && translate(queue[from]).Success? {
      if NextReturn(attempts, at) == |attempts| {
        OrderRetrying(queue, from, attempts, at, translate);
      } else {
        ConsumeInOrder(queue, from + 1, attempts, NextReturn(attempts, at) + 1, translate);
        OrderStep(queue, from, attempts, at, translate);
      }
    }
  }

  /** The step of `ConsumeInOrder` for an entry still retried when the
      outcomes run out. */
  lemma OrderRetrying(queue: seq<Json>, from: nat, attempts: seq<Attempt>, at: nat, translate: Translator)
    requires from < |queue| && at <= |attempts| && translate(queue[from]).Success?
    requires NextReturn(attempts, at) == |attempts|
    ensures InQueueOrder(Consume(queue, from, attempts, at, translate).posted)
  {
    var post := Post(from, translate(queue[from]).value);
    assert Consume(queue, from, attempts, at, translate).posted == Repeat(post, |attempts| - at) + [];
    HeadThenRestOrdered(post, |attempts| - at, []);
  }

  /** The step of `ConsumeInOrder` for an entry that is acknowledged. */
  lemma OrderStep(queue: seq<Json>, from: nat, attempts: seq<Attempt>, at: nat, translate: Translator)
    requires from < |queue| && at <= |attempts| && translate(queue[from]).Success?
    requires NextReturn(attempts, at) < |attempts|
    requires InQueueOrder(Consume(queue, from + 1, attempts, NextReturn(attempts, at) + 1, translate).posted)
    ensures InQueueOrder(Consume(queue, from, attempts, at, translate).posted)
  {
    var k := NextReturn(attempts, at);
    ConsumeBuiltFrom(queue, from + 1, attempts, k + 1, translate);
    var post := Post(from, translate(queue[from]).value);
    var rest := Consume(queue, from + 1, attempts, k + 1, translate);
    assert Consume(queue, from, attempts, at, translate).posted == Repeat(post, k - at + 1) + rest.posted;
    HeadThenRestOrdered(post, k - at + 1, rest.posted);
  }


  /** A translation that raises ends the run at that entry: it is popped,
      nothing is pushed for it, and nothing behind it is popped. */
  lemma FaultStopsConsumer(queue: seq<Json>, from: nat, attempts: seq<Attempt>, at: nat, translate: Translator)
    requires from < |queue| && at <= |attempts|
    requires translate(queue[from]).Failure?
    ensures Consume(queue, from, attempts, at, translate) == ConsumerRun(1, [], 0, Aborted(translate(queue[from]).error))
  {
  }

  /** With the logger's own translation, every push carries the translation
      of an entry the run popped: a one-element array holding a span of the
      edge router. */
  lemma {:induction false} PostedSpans(queue: seq<Json>, attempts: seq<Attempt>, lib: Library)
    ensures var r := Consume(queue, 0, attempts, 0, e => Translate(e, lib));
            forall i :: 0 <= i < |r.posted| ==>
              && r.posted[i].entry < r.popped
              && r.posted[i].entry < |queue|
              && Translate(queue[r.posted[i].entry], lib) == Success(r.posted[i].message)
              && |r.posted[i].message| == 1
              && EdgeRouterSpan(r.posted[i].message[0])
  {
    ConsumeBuiltFrom(queue, 0, attempts, 0, e => Translate(e, lib));
  }

  /** A response other than 202 is reported once and not retried: the
      entry is pushed exactly once, nobody sleeps, and the next push is for
      the next entry. */
  lemma NonAcceptedNotRetried(queue: seq<Json>, from: nat, attempts: seq<Attempt>, at: nat, translate: Translator)
    requires from < |queue| && at < |attempts|
    requires translate(queue[from]).Success?
    requires attempts[at].Responded? && attempts[at].response.code != Accepted202
    ensures PushZipkinMessage(attempts[at]) == PushReturned(true)
    ensures Consume(queue, from, attempts, at, translate) ==
            After(1, [Post(from, translate(queue[from]).value)], 0, Consume(queue, from + 1, attempts, at + 1, translate))
  {
    RetryThenAdvance(queue, from, attempts, at, 0, translate);
    assert Repeat(Post(from, translate(queue[from]).value), 1) == [Post(from, translate(queue[from]).value)];
  }

  /** An entry whose `time` cannot be parsed is not skipped: the consumer
      pops it, pushes nothing for it, and stops with the fault, so no later
      entry is ever popped. */
  lemma TimeParseFailureIsFatal(queue: seq<Json>, from: nat, attempts: seq<Attempt>, at: nat, lib: Library)
    requires from < |queue| && at <= |attempts|
    requires Index(queue[from], "request_time").Some?
    requires ToF(Index(queue[from], "request_time").value, lib).Some?
    requires EpochSeconds(Index(queue[from], "time").value, lib).None?
    ensures Consume(queue, from, attempts, at, e => Translate(e, lib)) == ConsumerRun(1, [], 0, Aborted(TimeNotParseable))
  {
    FaultStopsConsumer(queue, from, attempts, at, e => Translate(e, lib));
  }
}
