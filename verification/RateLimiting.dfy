/** The sliding-window rate limiter, against the plain reference "count the admissions of the last 60 seconds". */
module RateLimiting {
  import opened Common

  type Ip = nat

  /** Instants are in nanoseconds of a monotonic clock. */
  type Instant = int

  const SECOND: nat := 1_000_000_000
  const WINDOW: nat := 60 * SECOND
  const PER_IP_CLEANUP_EVERY: nat := 1_024

  datatype RateLimitInfo = RateLimitInfo(limit: nat, remaining: nat, reset: nat, allowed: bool)

  // ----- reference: the full history of checks

  datatype Event = Event(ip: Ip, at: Instant, admitted: bool)

  ghost predicate Counts(e: Event, ip: Option<Ip>) { e.admitted && (ip.None? || e.ip == ip.value) }

  /** The instants of the admissions of one IP, or of all of them. */
  ghost function Admissions(history: seq<Event>, ip: Option<Ip>): seq<Instant> {
    if |history| == 0 then []
    else
      var e := history[|history| - 1];
      var before := Admissions(history[..|history| - 1], ip);
      if Counts(e, ip) then before + [e.at] else before
  }

  /** How many admissions of one IP, or of all of them, fall into the closed interval `[from, to]`. */
  ghost function CountIn(history: seq<Event>, ip: Option<Ip>, from: Instant, to: Instant): nat {
    if |history| == 0 then 0
    else
      var e := history[|history| - 1];
      CountIn(history[..|history| - 1], ip, from, to) + (if Counts(e, ip) && from <= e.at <= to then 1 else 0)
  }

  /** The reference decision: fewer admissions in the last 60 seconds than every enabled limit. */
  ghost predicate BelowLimits(history: seq<Event>, globalRpm: nat, perIpRpm: nat, ip: Ip, now: Instant) {
    && (globalRpm == 0 || CountIn(history, None, now - WINDOW, now) < globalRpm)
    && (perIpRpm == 0 || CountIn(history, Some(ip), now - WINDOW, now) < perIpRpm)
  }

  ghost predicate Monotone(history: seq<Event>) {
    forall i, j :: 0 <= i <= j < |history| ==> history[i].at <= history[j].at
  }

  /** A history in which the clock never runs back and every check was decided by the reference. */
  ghost predicate Lawful(history: seq<Event>, globalRpm: nat, perIpRpm: nat) {
    && Monotone(history)
    && forall i :: 0 <= i < |history| ==>
         (history[i].admitted <==>
            BelowLimits(history[..i], globalRpm, perIpRpm, history[i].ip, history[i].at))
  }

  // ----- safety of every lawful history

  lemma {:induction false} CountMonotone(history: seq<Event>, ip: Option<Ip>, from: Instant, to: Instant,
                                         from': Instant, to': Instant)
    requires forall i :: 0 <= i < |history| && from <= history[i].at <= to ==> from' <= history[i].at <= to'
    ensures CountIn(history, ip, from, to) <= CountIn(history, ip, from', to')
  {
    if |history| > 0 {
      CountMonotone(history[..|history| - 1], ip, from, to, from', to');
    }
  }

  lemma {:induction false} LawfulPrefix(history: seq<Event>, globalRpm: nat, perIpRpm: nat)
    requires Lawful(history, globalRpm, perIpRpm) && |history| > 0
    ensures Lawful(history[..|history| - 1], globalRpm, perIpRpm)
  {
    var init := history[..|history| - 1];
    forall i | 0 <= i < |init| ensures init[..i] == history[..i] && init[i] == history[i] {
    }
  }

  /** No closed interval of 60 seconds holds more admissions of one IP than its limit, nor more admissions in all than
      the global limit. */
  lemma {:induction false} WindowSafety(history: seq<Event>, globalRpm: nat, perIpRpm: nat, ip: Ip, from: Instant)
    requires Lawful(history, globalRpm, perIpRpm)
    ensures perIpRpm > 0 ==> CountIn(history, Some(ip), from, from + 60_000_000_000) <= perIpRpm
    ensures globalRpm > 0 ==> CountIn(history, None, from, from + 60_000_000_000) <= globalRpm
  {
    if |history| > 0 {
      var init, e := history[..|history| - 1], history[|history| - 1];
      LawfulPrefix(history, globalRpm, perIpRpm);
      WindowSafety(init, globalRpm, perIpRpm, ip, from);
      if e.admitted && from <= e.at <= from + WINDOW {
        CountMonotone(init, None, from, from + WINDOW, e.at - WINDOW, e.at);
        CountMonotone(init, Some(e.ip), from, from + WINDOW, e.at - WINDOW, e.at);
      }
    }
  }

  // ----- queues

  ghost predicate Sorted(s: seq<Instant>) { forall i, j :: 0 <= i < j < |s| ==> s[i] <= s[j] }

  /** The queue without its leading instants before `cutoff`. */
  function Recent(s: seq<Instant>, cutoff: Instant): (r: seq<Instant>)
    ensures |r| <= |s|
  {
    if |s| > 0 && s[0] < cutoff then Recent(s[1..], cutoff) else s
  }

  lemma {:induction false} RecentTwice(s: seq<Instant>, earlier: Instant, later: Instant)
    requires earlier <= later
    ensures Recent(Recent(s, earlier), later) == Recent(s, later)
  {
    if |s| > 0 && s[0] < earlier {
      RecentTwice(s[1..], earlier, later);
    }
  }

  lemma {:induction false} RecentAppend(s: seq<Instant>, x: Instant, cutoff: Instant)
    requires cutoff <= x
    ensures Recent(s + [x], cutoff) == Recent(s, cutoff) + [x]
  {
    if |s| > 0 && s[0] < cutoff {
      RecentAppend(s[1..], x, cutoff);
      assert (s + [x])[1..] == s[1..] + [x];
    }
  }

  lemma {:induction false} AdmissionsBounds(history: seq<Event>, ip: Option<Ip>)
    requires Monotone(history)
    ensures Sorted(Admissions(history, ip))
    ensures forall k :: 0 <= k < |Admissions(history, ip)| && |history| > 0 ==>
      Admissions(history, ip)[k] <= history[|history| - 1].at
  {
    if |history| > 0 {
      AdmissionsBounds(history[..|history| - 1], ip);
    }
  }

  /** On a monotone history the recent part of the admission queue is what the reference counts. */
  lemma {:induction false} RecentIsCount(history: seq<Event>, ip: Option<Ip>, cutoff: Instant, now: Instant)
    requires Monotone(history) && forall i :: 0 <= i < |history| ==> history[i].at <= now
    ensures |Recent(Admissions(history, ip), cutoff)| == CountIn(history, ip, cutoff, now)
  {
    if |history| > 0 {
      var init, e := history[..|history| - 1], history[|history| - 1];
      RecentIsCount(init, ip, cutoff, now);
      var a := Admissions(init, ip);
      if Counts(e, ip) {
        if cutoff <= e.at {
          RecentAppend(a, e.at, cutoff);
        } else {
          AdmissionsBounds(history, ip);
          assert forall k :: 0 <= k < |a| ==> a[k] == (a + [e.at])[k];
          AllOld(a + [e.at], cutoff);
          AllOld(a, cutoff);
        }
      }
    }
  }

  lemma {:induction false} AllOld(s: seq<Instant>, cutoff: Instant)
    requires forall k :: 0 <= k < |s| ==> s[k] < cutoff
    ensures Recent(s, cutoff) == []
  {
    if |s| > 0 {
      AllOld(s[1..], cutoff);
    }
  }

  // ----- queues against the history

  function QueueOf(perIp: map<Ip, seq<Instant>>, ip: Ip): seq<Instant> {
    if ip in perIp then perIp[ip] else []
  }

  /** What the queue of a limit must hold of the history from `cutoff` on: all of it, or nothing if it is disabled. */
  ghost function Expected(history: seq<Event>, ip: Option<Ip>, rpm: nat, cutoff: Instant): seq<Instant> {
    if rpm > 0 then Recent(Admissions(history, ip), cutoff) else []
  }

  /** The queues agree with the history on everything from `cutoff` on; absent queues count as empty. */
  ghost predicate Agree(globalRpm: nat, perIpRpm: nat, history: seq<Event>, global: seq<Instant>,
                        perIp: map<Ip, seq<Instant>>, cutoff: Instant)
  {
    && Recent(global, cutoff) == Expected(history, None, globalRpm, cutoff)
    && forall ip: Ip :: Recent(QueueOf(perIp, ip), cutoff) == Expected(history, Some(ip), perIpRpm, cutoff)
  }

  lemma {:induction false} ExpectedLater(history: seq<Event>, ip: Option<Ip>, rpm: nat, queue: seq<Instant>,
                                         earlier: Instant, later: Instant)
    requires earlier <= later && Recent(queue, earlier) == Expected(history, ip, rpm, earlier)
    ensures Recent(queue, later) == Expected(history, ip, rpm, later)
  {
    RecentTwice(queue, earlier, later);
    RecentTwice(Admissions(history, ip), earlier, later);
  }

  lemma {:induction false} AgreeLater(globalRpm: nat, perIpRpm: nat, history: seq<Event>, global: seq<Instant>,
                                      perIp: map<Ip, seq<Instant>>, earlier: Instant, later: Instant)
    requires earlier <= later && Agree(globalRpm, perIpRpm, history, global, perIp, earlier)
    ensures Agree(globalRpm, perIpRpm, history, global, perIp, later)
  {
    ExpectedLater(history, None, globalRpm, global, earlier, later);
    forall ip: Ip ensures Recent(QueueOf(perIp, ip), later) == Expected(history, Some(ip), perIpRpm, later) {
      ExpectedLater(history, Some(ip), perIpRpm, QueueOf(perIp, ip), earlier, later);
    }
  }

  /** Recording an event at or after `cutoff` appends it to exactly the queues of the limits it counts for. */
  lemma {:induction false} ExpectedNext(history: seq<Event>, e: Event, ip: Option<Ip>, rpm: nat, cutoff: Instant)
    requires cutoff <= e.at
    ensures Expected(history + [e], ip, rpm, cutoff) ==
      Expected(history, ip, rpm, cutoff) + (if rpm > 0 && Counts(e, ip) then [e.at] else [])
  {
    assert (history + [e])[..|history|] == history;
    RecentAppend(Admissions(history, ip), e.at, cutoff);
  }

  lemma {:induction false} AgreeNext(globalRpm: nat, perIpRpm: nat, history: seq<Event>, global: seq<Instant>,
                                     perIp: map<Ip, seq<Instant>>, cutoff: Instant, e: Event, global': seq<Instant>,
                                     perIp': map<Ip, seq<Instant>>)
    requires Agree(globalRpm, perIpRpm, history, global, perIp, cutoff) && cutoff <= e.at
    requires global' == if e.admitted && globalRpm > 0 then global + [e.at] else global
    requires perIp' == if e.admitted && perIpRpm > 0 then perIp[e.ip := QueueOf(perIp, e.ip) + [e.at]] else perIp
    ensures Agree(globalRpm, perIpRpm, history + [e], global', perIp', cutoff)
  {
    ExpectedNext(history, e, None, globalRpm, cutoff);
    RecentAppend(global, e.at, cutoff);
    forall ip: Ip
      ensures Recent(QueueOf(perIp', ip), cutoff) == Expected(history + [e], Some(ip), perIpRpm, cutoff)
    {
      ExpectedNext(history, e, Some(ip), perIpRpm, cutoff);
      RecentAppend(QueueOf(perIp, ip), e.at, cutoff);
    }
  }

  lemma {:induction false} LawfulNext(history: seq<Event>, globalRpm: nat, perIpRpm: nat, e: Event)
    requires Lawful(history, globalRpm, perIpRpm)
    requires forall i :: 0 <= i < |history| ==> history[i].at <= e.at
    requires e.admitted <==> BelowLimits(history, globalRpm, perIpRpm, e.ip, e.at)
    ensures Lawful(history + [e], globalRpm, perIpRpm)
  {
    var next := history + [e];
    forall i | 0 <= i < |next|
      ensures next[i].admitted <==> BelowLimits(next[..i], globalRpm, perIpRpm, next[i].ip, next[i].at)
    {
      assert next[..i] == if i < |history| then history[..i] else history;
    }
  }

  /** The lengths of up-to-date queues are the reference counts. */
  lemma {:induction false} QueueLengths(history: seq<Event>, globalRpm: nat, perIpRpm: nat, ip: Ip, now: Instant)
    requires Monotone(history) && forall i :: 0 <= i < |history| ==> history[i].at <= now
    ensures globalRpm > 0 ==>
      |Expected(history, None, globalRpm, now - WINDOW)| == CountIn(history, None, now - WINDOW, now)
    ensures perIpRpm > 0 ==>
      |Expected(history, Some(ip), perIpRpm, now - WINDOW)| == CountIn(history, Some(ip), now - WINDOW, now)
  {
    RecentIsCount(history, None, now - WINDOW, now);
    RecentIsCount(history, Some(ip), now - WINDOW, now);
  }

  /** What up-to-date queues say about the next event: whether the reference admits it, and how the expected queues and
      the counts look with it. */
  lemma {:induction false} Decided(history: seq<Event>, globalRpm: nat, perIpRpm: nat, e: Event, global: seq<Instant>,
                                   queue: seq<Instant>)
    requires Lawful(history, globalRpm, perIpRpm)
    requires forall i :: 0 <= i < |history| ==> history[i].at <= e.at
    requires global == Expected(history, None, globalRpm, e.at - WINDOW)
    requires queue == Expected(history, Some(e.ip), perIpRpm, e.at - WINDOW)
    requires e.admitted <==> (globalRpm == 0 || |global| < globalRpm) && (perIpRpm == 0 || |queue| < perIpRpm)
    ensures e.admitted <==> BelowLimits(history, globalRpm, perIpRpm, e.ip, e.at)
    ensures Lawful(history + [e], globalRpm, perIpRpm)
    ensures Expected(history + [e], None, globalRpm, e.at - WINDOW) ==
      if e.admitted && globalRpm > 0 then global + [e.at] else global
    ensures Expected(history + [e], Some(e.ip), perIpRpm, e.at - WINDOW) ==
      if e.admitted && perIpRpm > 0 then queue + [e.at] else queue
  {
    QueueLengths(history, globalRpm, perIpRpm, e.ip, e.at);
    LawfulNext(history, globalRpm, perIpRpm, e);
    ExpectedNext(history, e, None, globalRpm, e.at - WINDOW);
    ExpectedNext(history, e, Some(e.ip), perIpRpm, e.at - WINDOW);
  }

  /** What a check reports, given the history that ends with it. */
  ghost predicate InfoMatches(info: RateLimitInfo, globalRpm: nat, perIpRpm: nat, history: seq<Event>, ip: Ip,
                              now: Instant, unixNow: nat)
  {
    var mine, all := CountIn(history, Some(ip), now - WINDOW, now), CountIn(history, None, now - WINDOW, now);
    var perIpReported := perIpRpm > 0 && (info.allowed || mine >= perIpRpm);
    // the IP's own limit comes first: on every admission if it is enabled, on a refusal if it was reached
    && info.limit == (if perIpReported then perIpRpm else globalRpm)
    // what remains of the reported limit, this admission included
    && (!info.allowed ==> info.remaining == 0)
    && (info.allowed && perIpRpm > 0 ==> info.remaining + mine == perIpRpm)
    && (info.allowed && perIpRpm == 0 && globalRpm > 0 ==> info.remaining + all == globalRpm)
    && (info.allowed && perIpRpm == 0 && globalRpm == 0 ==> info.remaining == 0)
    // the reset time is when the oldest admission in the window of the reported limit leaves it
    && info.reset == ResetAt(if perIpReported then Expected(history, Some(ip), perIpRpm, now - WINDOW)
                             else Expected(history, None, globalRpm, now - WINDOW), now, unixNow)
    && IsReset(info.reset, history, if perIpReported then Some(ip) else None, info.limit, now, unixNow)
  }

  /** `at` is the earliest admission in the closed interval. */
  ghost predicate IsOldest(history: seq<Event>, who: Option<Ip>, from: Instant, to: Instant, at: Instant) {
    && (exists i :: 0 <= i < |history| && Counts(history[i], who) && from <= history[i].at <= to &&
         history[i].at == at)
    && (forall i :: 0 <= i < |history| && Counts(history[i], who) && from <= history[i].at <= to ==>
         history[i].at >= at)
  }

  /** The whole seconds left until the oldest admission of the last 60 seconds is 60 seconds old; 60 if there is none,
      or no limit. */
  ghost predicate IsReset(reset: nat, history: seq<Event>, who: Option<Ip>, limit: nat, now: Instant, unixNow: nat) {
    if limit == 0 || CountIn(history, who, now - 60_000_000_000, now) == 0 then reset == unixNow + 60
    else exists oldest :: LeavesAt(oldest, reset, history, who, now, unixNow)
  }

  ghost predicate LeavesAt(oldest: Instant, reset: nat, history: seq<Event>, who: Option<Ip>, now: Instant,
                           unixNow: nat)
  {
    && IsOldest(history, who, now - 60_000_000_000, now, oldest)
    && reset >= unixNow
    && 0 <= oldest + 60_000_000_000 - now - (reset - unixNow) * 1_000_000_000 < 1_000_000_000
  }

  lemma {:induction false} NoneCounted(history: seq<Event>, who: Option<Ip>, from: Instant, to: Instant)
    requires CountIn(history, who, from, to) == 0
    ensures forall i :: 0 <= i < |history| && Counts(history[i], who) ==> !(from <= history[i].at <= to)
  {
    if |history| > 0 {
      NoneCounted(history[..|history| - 1], who, from, to);
    }
  }

  lemma {:induction false} RecentStartsOldest(history: seq<Event>, who: Option<Ip>, cutoff: Instant, now: Instant)
    requires Monotone(history) && forall i :: 0 <= i < |history| ==> history[i].at <= now
    requires |Recent(Admissions(history, who), cutoff)| > 0
    ensures IsOldest(history, who, cutoff, now, Recent(Admissions(history, who), cutoff)[0])
  {
    var init, e := history[..|history| - 1], history[|history| - 1];
    var before := Recent(Admissions(init, who), cutoff);
    RecentIsCount(init, who, cutoff, now);
    RecentIsCount(history, who, cutoff, now);
    if Counts(e, who) && cutoff <= e.at {
      RecentAppend(Admissions(init, who), e.at, cutoff);
    }
    if |before| > 0 {
      RecentStartsOldest(init, who, cutoff, now);
      var i :| 0 <= i < |init| && Counts(init[i], who) && cutoff <= init[i].at <= now && init[i].at == before[0];
      assert history[i] == init[i];
    } else {
      NoneCounted(init, who, cutoff, now);
      assert history[|init|] == e;
    }
  }

  /** The reset time read off an up-to-date queue. */
  lemma {:induction false} ResetIs(history: seq<Event>, who: Option<Ip>, limit: nat, now: Instant, unixNow: nat)
    requires Monotone(history) && forall i :: 0 <= i < |history| ==> history[i].at <= now
    ensures IsReset(ResetAt(Expected(history, who, limit, now - WINDOW), now, unixNow), history, who, limit, now,
                    unixNow)
  {
    RecentIsCount(history, who, now - WINDOW, now);
    RecentHead(Admissions(history, who), now - WINDOW);
    if limit > 0 && CountIn(history, who, now - WINDOW, now) > 0 {
      RecentStartsOldest(history, who, now - WINDOW, now);
      var queue := Recent(Admissions(history, who), now - WINDOW);
      assert LeavesAt(queue[0], ResetAt(queue, now, unixNow), history, who, now, unixNow);
    }
  }

  /** The report on a decision, made from the queues after it. */
  function InfoOf(allowed: bool, globalRpm: nat, perIpRpm: nat, global: seq<Instant>, queue: seq<Instant>, now: Instant,
                  unixNow: nat): RateLimitInfo
  {
    if allowed then
      if perIpRpm > 0 then RateLimitInfo(perIpRpm, SaturatingSub(perIpRpm, |queue|), ResetAt(queue, now, unixNow), true)
      else RateLimitInfo(globalRpm, SaturatingSub(globalRpm, |global|), ResetAt(global, now, unixNow), true)
    else if perIpRpm > 0 && |queue| >= perIpRpm then RateLimitInfo(perIpRpm, 0, ResetAt(queue, now, unixNow), false)
    else RateLimitInfo(globalRpm, 0, ResetAt(global, now, unixNow), false)
  }

  // ----- what the reset time of a refusal means

  /** A limit that is reached has room again exactly after its oldest admission in the window has left it; the window is
      closed, so at `oldest + WINDOW` it has not. */
  lemma {:induction false} LimitFrees(history: seq<Event>, ip: Option<Ip>, rpm: nat, now: Instant, later: Instant)
    requires Monotone(history) && (forall i :: 0 <= i < |history| ==> history[i].at <= now) && now <= later
    requires rpm > 0 && |Expected(history, ip, rpm, now - WINDOW)| == rpm
    ensures CountIn(history, ip, later - WINDOW, later) < rpm <==>
      later > Expected(history, ip, rpm, now - WINDOW)[0] + WINDOW
  {
    var queue := Expected(history, ip, rpm, now - WINDOW);
    RecentIsCount(history, ip, later - WINDOW, later);
    RecentTwice(Admissions(history, ip), now - WINDOW, later - WINDOW);
    assert Recent(queue, later - WINDOW) == Recent(Admissions(history, ip), later - WINDOW);
  }

  lemma {:induction false} RecentHead(s: seq<Instant>, cutoff: Instant)
    ensures |Recent(s, cutoff)| > 0 ==> Recent(s, cutoff)[0] >= cutoff
  {
    if |s| > 0 && s[0] < cutoff {
      RecentHead(s[1..], cutoff);
    }
  }

  /** The limit that a refusal reports: that of the IP if it was reached, otherwise the global one. */
  ghost function Reported(history: seq<Event>, perIpRpm: nat, ip: Ip, now: Instant): Option<Ip> {
    if perIpRpm > 0 && CountIn(history, Some(ip), now - WINDOW, now) >= perIpRpm then Some(ip) else None
  }

  /** A refusal means that the reported limit is reached, neither missed nor exceeded. */
  lemma {:induction false} RefusedAtLimit(history: seq<Event>, globalRpm: nat, perIpRpm: nat, e: Event)
    requires Lawful(history + [e], globalRpm, perIpRpm) && !e.admitted
    ensures var all := history + [e];
      var who := Reported(all, perIpRpm, e.ip, e.at);
      var limit := if who.Some? then perIpRpm else globalRpm;
      limit > 0 && |Expected(all, who, limit, e.at - WINDOW)| == limit
  {
    var all := history + [e];
    assert all[..|history|] == history && all[|history|] == e;
    WindowSafety(all, globalRpm, perIpRpm, e.ip, e.at - WINDOW);
    QueueLengths(all, globalRpm, perIpRpm, e.ip, e.at);
  }

  /** After a refusal, and if no other check follows: when the reported whole seconds until reset have passed, the
      reported limit still has no room; one second later it has. */
  lemma {:induction false} RefusalReset(history: seq<Event>, globalRpm: nat, perIpRpm: nat, e: Event,
                                        info: RateLimitInfo, unixNow: nat)
    requires Lawful(history + [e], globalRpm, perIpRpm) && !e.admitted && !info.allowed
    requires InfoMatches(info, globalRpm, perIpRpm, history + [e], e.ip, e.at, unixNow)
    ensures info.limit > 0 && info.reset >= unixNow
    ensures var all, at := history + [e], e.at + (info.reset - unixNow) * 1_000_000_000;
      var who := Reported(all, perIpRpm, e.ip, e.at);
      CountIn(all, who, at - 60_000_000_000, at) >= info.limit >
        CountIn(all, who, at - 59_000_000_000, at + 1_000_000_000)
  {
    var all, at := history + [e], e.at + (info.reset - unixNow) * SECOND;
    var who := Reported(all, perIpRpm, e.ip, e.at);
    RefusedAtLimit(history, globalRpm, perIpRpm, e);
    RecentHead(Admissions(all, who), e.at - WINDOW);
    LimitFrees(all, who, info.limit, e.at, at);
    LimitFrees(all, who, info.limit, e.at, at + SECOND);
  }

  // ----- how many queues are kept

  /** Every IP in `ips` has an admission of its own in the window, so there are at least as many admissions as IPs. */
  lemma {:induction false} OneAdmissionPerIp(history: seq<Event>, ips: set<Ip>, from: Instant, to: Instant)
    requires forall ip :: ip in ips ==> CountIn(history, Some(ip), from, to) > 0
    ensures |ips| <= CountIn(history, None, from, to)
  {
    if |history| == 0 {
      assert ips == {};
    } else {
      var init, e := history[..|history| - 1], history[|history| - 1];
      if Counts(e, None) && from <= e.at <= to {
        OneAdmissionPerIp(init, ips - {e.ip}, from, to);
        assert |ips| <= |ips - {e.ip}| + 1;
      } else {
        OneAdmissionPerIp(init, ips, from, to);
      }
    }
  }

  // ----- the code

  function SaturatingSub(a: nat, b: nat): nat { if a >= b then a - b else 0 }

  /** When the oldest admission in the queue leaves the window, in whole seconds of the wall clock. */
  function ResetAt(window: seq<Instant>, now: Instant, unixNow: nat): nat {
    if |window| == 0 then unixNow + WINDOW / SECOND
    else
      var left := window[0] + WINDOW - now;
      unixNow + (if left > 0 then left / SECOND else 0)
  }

  method Prune(window: seq<Instant>, cutoff: Instant) returns (pruned: seq<Instant>)
    ensures pruned == Recent(window, cutoff)
  {
    pruned := window;
    while |pruned| > 0 && pruned[0] < cutoff
      invariant Recent(pruned, cutoff) == Recent(window, cutoff)
    {
      pruned := pruned[1..];
    }
  }

  /** The periodic cleanup: prune every queue and forget the empty ones. */
  method RetainRecent(perIp: map<Ip, seq<Instant>>, cutoff: Instant) returns (kept: map<Ip, seq<Instant>>)
    ensures forall ip :: ip in kept <==> ip in perIp && Recent(perIp[ip], cutoff) != []
    ensures forall ip :: ip in kept ==> kept[ip] == Recent(perIp[ip], cutoff)
  {
    kept := map[];
    var todo := perIp.Keys;
    while todo != {}
      invariant todo <= perIp.Keys
      invariant forall ip :: ip in kept <==> ip in perIp && ip !in todo && Recent(perIp[ip], cutoff) != []
      invariant forall ip :: ip in kept ==> kept[ip] == Recent(perIp[ip], cutoff)
      decreases todo
    {
      var ip :| ip in todo;
      var window := Prune(perIp[ip], cutoff);
      if window != [] {
        kept := kept[ip := window];
      }
      todo := todo - {ip};
    }
  }

  lemma {:induction false} RetainAgrees(globalRpm: nat, perIpRpm: nat, history: seq<Event>, global: seq<Instant>,
                                        perIp: map<Ip, seq<Instant>>, cutoff: Instant, now: Instant,
                                        kept: map<Ip, seq<Instant>>)
    requires Agree(globalRpm, perIpRpm, history, global, perIp, cutoff)
    requires forall ip :: ip in kept <==> ip in perIp && Recent(perIp[ip], cutoff) != []
    requires forall ip :: ip in kept ==> kept[ip] == Recent(perIp[ip], cutoff)
    requires Lawful(history, globalRpm, perIpRpm) && forall i :: 0 <= i < |history| ==> history[i].at <= now
    requires cutoff == now - WINDOW
    ensures Agree(globalRpm, perIpRpm, history, global, kept, cutoff)
    ensures globalRpm > 0 || perIpRpm == 0 ==> |kept| <= globalRpm
  {
    forall ip: Ip ensures Recent(QueueOf(kept, ip), cutoff) == Recent(QueueOf(perIp, ip), cutoff) {
      RecentTwice(QueueOf(perIp, ip), cutoff, cutoff);
    }
    forall ip | ip in kept ensures perIpRpm > 0 && CountIn(history, Some(ip), cutoff, now) > 0 {
      RecentIsCount(history, Some(ip), cutoff, now);
      assert Recent(QueueOf(perIp, ip), cutoff) == Expected(history, Some(ip), perIpRpm, cutoff);
    }
    assert perIpRpm == 0 ==> kept == map[];
    OneAdmissionPerIp(history, kept.Keys, cutoff, now);
    WindowSafety(history, globalRpm, perIpRpm, 0, cutoff);
  }

  /** Pruning the queues that a check needs makes them exactly the expected ones. */
  lemma {:induction false} PruneAgrees(globalRpm: nat, perIpRpm: nat, history: seq<Event>, global: seq<Instant>,
                                       perIp: map<Ip, seq<Instant>>, cutoff: Instant, ip: Ip, global': seq<Instant>,
                                       perIp': map<Ip, seq<Instant>>)
    requires Agree(globalRpm, perIpRpm, history, global, perIp, cutoff)
    requires global' == Recent(global, cutoff) && perIp' == perIp[ip := Recent(QueueOf(perIp, ip), cutoff)]
    ensures Agree(globalRpm, perIpRpm, history, global', perIp', cutoff)
    ensures global' == Expected(history, None, globalRpm, cutoff)
    ensures perIp'[ip] == Expected(history, Some(ip), perIpRpm, cutoff)
    ensures |perIp'| <= |perIp| + 1
  {
    RecentTwice(global, cutoff, cutoff);
    RecentTwice(QueueOf(perIp, ip), cutoff, cutoff);
    assert perIp'.Keys == perIp.Keys + {ip};
    assert |perIp'| == |perIp'.Keys|;
  }

  lemma {:induction false} NextInCycle(count: nat)
    ensures (count + 1) % PER_IP_CLEANUP_EVERY == 0 ||
      (count + 1) % PER_IP_CLEANUP_EVERY == count % PER_IP_CLEANUP_EVERY + 1
  {
  }

  /** The history is lawful, the queues agree with it, and the number of queues is bounded by the global limit and the
      number of checks since the last cleanup. */
  ghost predicate Consistent(globalRpm: nat, perIpRpm: nat, history: seq<Event>, clock: Instant, checks: nat,
                             global: seq<Instant>, perIp: map<Ip, seq<Instant>>)
  {
    && Lawful(history, globalRpm, perIpRpm)
    && (forall i :: 0 <= i < |history| ==> history[i].at <= clock)
    && checks == |history|
    && Agree(globalRpm, perIpRpm, history, global, perIp, clock - WINDOW)
    && global == Expected(history, None, globalRpm, clock - WINDOW)
    && (globalRpm > 0 || perIpRpm == 0 ==> |perIp| <= globalRpm + 1 + checks % PER_IP_CLEANUP_EVERY)
  }

  /** The report made from up-to-date queues, this check included. */
  lemma {:induction false} InfoFromQueues(info: RateLimitInfo, globalRpm: nat, perIpRpm: nat, history: seq<Event>,
                                          ip: Ip, now: Instant, unixNow: nat, checks: nat, global: seq<Instant>,
                                          perIp: map<Ip, seq<Instant>>)
    requires Consistent(globalRpm, perIpRpm, history, now, checks, global, perIp)
    requires ip in perIp && perIp[ip] == Expected(history, Some(ip), perIpRpm, now - WINDOW)
    requires info.allowed && perIpRpm > 0 ==> |perIp[ip]| <= perIpRpm
    requires info == InfoOf(info.allowed, globalRpm, perIpRpm, global, perIp[ip], now, unixNow)
    ensures InfoMatches(info, globalRpm, perIpRpm, history, ip, now, unixNow)
  {
    QueueLengths(history, globalRpm, perIpRpm, ip, now);
    ResetIs(history, Some(ip), perIpRpm, now, unixNow);
    ResetIs(history, None, globalRpm, now, unixNow);
    if globalRpm > 0 {
      TrackedIpsBound(globalRpm, perIpRpm, history, now, checks, global, perIp);
    }
  }

  /** With a global limit, or without any limit at all, the number of tracked IPs stays bounded, whatever IPs ever show
      up; and so does the number of admissions kept for the global limit. */
  lemma {:induction false} TrackedIpsBound(globalRpm: nat, perIpRpm: nat, history: seq<Event>, clock: Instant,
                                           checks: nat, global: seq<Instant>, perIp: map<Ip, seq<Instant>>)
    requires globalRpm > 0 || perIpRpm == 0
    requires Consistent(globalRpm, perIpRpm, history, clock, checks, global, perIp)
    ensures |perIp| <= globalRpm + 1_024
    ensures |global| <= globalRpm
  {
    QueueLengths(history, globalRpm, perIpRpm, 0, clock);
    WindowSafety(history, globalRpm, perIpRpm, 0, clock - WINDOW);
  }

  /** With a limit per IP every IP that has an admission in the window is tracked; so without a global limit nothing
      bounds the number of tracked IPs but the number of IPs. */
  lemma {:induction false} ActiveIpsAreTracked(globalRpm: nat, perIpRpm: nat, history: seq<Event>, clock: Instant,
                                               checks: nat, global: seq<Instant>, perIp: map<Ip, seq<Instant>>,
                                               ips: set<Ip>)
    requires perIpRpm > 0 && Consistent(globalRpm, perIpRpm, history, clock, checks, global, perIp)
    requires forall ip :: ip in ips ==> CountIn(history, Some(ip), clock - WINDOW, clock) > 0
    ensures ips <= perIp.Keys && |ips| <= |perIp|
  {
    forall ip | ip in ips ensures ip in perIp {
      RecentIsCount(history, Some(ip), clock - WINDOW, clock);
      assert Recent(QueueOf(perIp, ip), clock - WINDOW) == Expected(history, Some(ip), perIpRpm, clock - WINDOW);
    }
    assert perIp.Keys == ips + (perIp.Keys - ips);
    assert |perIp| == |perIp.Keys|;
  }

  /** As `Consistent`, with the queues that a check of `ip` needs brought up to date and the check itself counted. */
  ghost predicate UpToDate(globalRpm: nat, perIpRpm: nat, history: seq<Event>, ip: Ip, now: Instant, checks: nat,
                           global: seq<Instant>, perIp: map<Ip, seq<Instant>>)
  {
    && Lawful(history, globalRpm, perIpRpm)
    && (forall i :: 0 <= i < |history| ==> history[i].at <= now)
    && checks == |history| + 1
    && Agree(globalRpm, perIpRpm, history, global, perIp, now - WINDOW)
    && global == Expected(history, None, globalRpm, now - WINDOW)
    && ip in perIp && perIp[ip] == Expected(history, Some(ip), perIpRpm, now - WINDOW)
    && (globalRpm > 0 || perIpRpm == 0 ==> |perIp| <= globalRpm + 1 + checks % PER_IP_CLEANUP_EVERY)
  }

  /** Recording the decision made on up-to-date queues. */
  lemma {:induction false} Record(globalRpm: nat, perIpRpm: nat, history: seq<Event>, e: Event, checks: nat,
                                  global: seq<Instant>, perIp: map<Ip, seq<Instant>>, global': seq<Instant>,
                                  perIp': map<Ip, seq<Instant>>)
    requires UpToDate(globalRpm, perIpRpm, history, e.ip, e.at, checks, global, perIp)
    requires e.admitted <==> (globalRpm == 0 || |global| < globalRpm) && (perIpRpm == 0 || |perIp[e.ip]| < perIpRpm)
    requires global' == if e.admitted && globalRpm > 0 then global + [e.at] else global
    requires perIp' == if e.admitted && perIpRpm > 0 then perIp[e.ip := perIp[e.ip] + [e.at]] else perIp
    ensures e.admitted <==> BelowLimits(history, globalRpm, perIpRpm, e.ip, e.at)
    ensures Consistent(globalRpm, perIpRpm, history + [e], e.at, checks, global', perIp')
    ensures global' == Expected(history + [e], None, globalRpm, e.at - WINDOW)
    ensures perIp'[e.ip] == Expected(history + [e], Some(e.ip), perIpRpm, e.at - WINDOW)
  {
    Decided(history, globalRpm, perIpRpm, e, global, perIp[e.ip]);
    AgreeNext(globalRpm, perIpRpm, history, global, perIp, e.at - WINDOW, e, global', perIp');
    assert perIp'.Keys == perIp.Keys;
    assert |perIp'| == |perIp'.Keys| && |perIp| == |perIp.Keys|;
  }

  class RateLimiter {
    const globalRpm: nat
    const perIpRpm: nat
    var global: seq<Instant>
    var perIp: map<Ip, seq<Instant>>
    var perIpCheckCount: nat

    ghost var history: seq<Event>
    ghost var clock: Instant  // no check has happened after this instant

    constructor (globalRpm: nat, perIpRpm: nat, ghost start: Instant)
      ensures this.globalRpm == globalRpm && this.perIpRpm == perIpRpm
      ensures Valid() && history == [] && clock == start
    {
      this.globalRpm := globalRpm;
      this.perIpRpm := perIpRpm;
      global := [];
      perIp := map[];
      perIpCheckCount := 0;
      history := [];
      clock := start;
    }

    ghost predicate Valid()
      reads this
    {
      Consistent(globalRpm, perIpRpm, history, clock, perIpCheckCount, global, perIp)
    }

    /** Prune the queues that matter, and every so often all of them. */
    method Refresh(ip: Ip, now: Instant)
      requires Valid() && now >= clock
      modifies this
      ensures UpToDate(globalRpm, perIpRpm, history, ip, now, perIpCheckCount, global, perIp)
      ensures clock == now && history == old(history)
    {
      var cutoff := now - WINDOW;
      ghost var past, global0, perIp0, count0 := history, global, perIp, perIpCheckCount;
      AgreeLater(globalRpm, perIpRpm, past, global0, perIp0, clock - WINDOW, cutoff);
      clock := now;
      global := Prune(global, cutoff);
      perIpCheckCount := perIpCheckCount + 1;
      NextInCycle(count0);
      if perIpCheckCount % PER_IP_CLEANUP_EVERY == 0 {
        perIp := RetainRecent(perIp, cutoff);
        RetainAgrees(globalRpm, perIpRpm, past, global0, perIp0, cutoff, now, perIp);
      }
      ghost var perIp1 := perIp;
      var window := Prune(QueueOf(perIp, ip), cutoff);
      perIp := perIp[ip := window];
      PruneAgrees(globalRpm, perIpRpm, past, global0, perIp1, cutoff, ip, global, perIp);
    }

    /** Decide on up-to-date queues, and enter an admission into the queues of the enabled limits. */
    method Decide(ip: Ip, now: Instant, unixNow: nat) returns (info: RateLimitInfo)
      requires ip in perIp
      modifies this`global, this`perIp
      ensures info.allowed <==>
        (globalRpm == 0 || |old(global)| < globalRpm) && (perIpRpm == 0 || |old(perIp)[ip]| < perIpRpm)
      ensures global == if info.allowed && globalRpm > 0 then old(global) + [now] else old(global)
      ensures perIp ==
        if info.allowed && perIpRpm > 0 then old(perIp)[ip := old(perIp)[ip] + [now]] else old(perIp)
      ensures info == InfoOf(info.allowed, globalRpm, perIpRpm, global, perIp[ip], now, unixNow)
    {
      var globalAllowed := globalRpm == 0 || |global| < globalRpm;
      var perIpAllowed := perIpRpm == 0 || |perIp[ip]| < perIpRpm;
      if !globalAllowed || !perIpAllowed {
        info := if !perIpAllowed then RateLimitInfo(perIpRpm, 0, ResetAt(perIp[ip], now, unixNow), false)
                else RateLimitInfo(globalRpm, 0, ResetAt(global, now, unixNow), false);
      } else {
        if globalRpm > 0 {
          global := global + [now];
        }
        if perIpRpm > 0 {
          perIp := perIp[ip := perIp[ip] + [now]];
        }
        info := if perIpRpm > 0 then
                  RateLimitInfo(perIpRpm, SaturatingSub(perIpRpm, |perIp[ip]|), ResetAt(perIp[ip], now, unixNow), true)
                else
                  RateLimitInfo(globalRpm, SaturatingSub(globalRpm, |global|), ResetAt(global, now, unixNow), true);
      }
    }

    /** Decide one check. The decision is the reference decision on the full history; the history grows by it. */
    method Check(ip: Ip, now: Instant, unixNow: nat) returns (info: RateLimitInfo)
      requires Valid() && now >= clock
      modifies this
      ensures Valid() && clock == now
      ensures history == old(history) + [Event(ip, now, info.allowed)]
      ensures info.allowed <==> BelowLimits(old(history), globalRpm, perIpRpm, ip, now)
      ensures InfoMatches(info, globalRpm, perIpRpm, history, ip, now, unixNow)
    {
      Refresh(ip, now);
      ghost var past, global0, perIp0 := history, global, perIp;
      info := Decide(ip, now, unixNow);
      ghost var e := Event(ip, now, info.allowed);
      Record(globalRpm, perIpRpm, past, e, perIpCheckCount, global0, perIp0, global, perIp);
      InfoFromQueues(info, globalRpm, perIpRpm, past + [e], ip, now, unixNow, perIpCheckCount, global, perIp);
      history := past + [e];
    }
  }

  /** One admission of each of the IPs below `n`, all at the same instant. */
  ghost function FirstVisits(n: nat, at: Instant): seq<Event> {
    if n == 0 then [] else FirstVisits(n - 1, at) + [Event(n - 1, at, true)]
  }

  lemma {:induction false} VisitsCounted(n: nat, at: Instant, ip: Ip)
    ensures CountIn(FirstVisits(n, at), Some(ip), at - WINDOW, at) == if ip < n then 1 else 0
  {
    if n > 0 {
      VisitsCounted(n - 1, at, ip);
      assert FirstVisits(n, at)[..|FirstVisits(n, at)| - 1] == FirstVisits(n - 1, at);
    }
  }

  ghost function IpsBelow(n: nat): (ips: set<Ip>)
    ensures |ips| == n && forall ip: Ip :: ip in ips <==> ip < n
  {
    if n == 0 then {}
    else
      var before := IpsBelow(n - 1);
      assert n - 1 !in before;
      before + {n - 1}
  }

  /** With a limit per IP alone, a limiter can come to track any number of IPs. */
  method TrackEachIp(n: nat, perIpRpm: nat, start: Instant, unixNow: nat) returns (limiter: RateLimiter)
    requires perIpRpm > 0
    ensures fresh(limiter) && limiter.Valid() && limiter.globalRpm == 0 && limiter.perIpRpm == perIpRpm
    ensures |limiter.perIp| >= n
  {
    limiter := new RateLimiter(0, perIpRpm, start);
    for i := 0 to n
      invariant fresh(limiter) && limiter.Valid() && limiter.globalRpm == 0 && limiter.perIpRpm == perIpRpm
      invariant limiter.clock == start && limiter.history == FirstVisits(i, start)
    {
      VisitsCounted(i, start, i);
      var info := limiter.Check(i, start, unixNow);
    }
    ghost var ips := IpsBelow(n);
    forall ip | ip in ips ensures CountIn(limiter.history, Some(ip), start - WINDOW, start) > 0 {
      VisitsCounted(n, start, ip);
    }
    ActiveIpsAreTracked(0, perIpRpm, limiter.history, start, limiter.perIpCheckCount, limiter.global, limiter.perIp,
                        ips);
  }
}
