/** The sliding-window limiter for sent e-mails (server/parsec/email_rate_limit.py).

    The limiter prunes what is older than one hour; the statements below are about everything it
    ever accepted. */
module EmailRateLimit {
  import opened Basics
  import opened Wrappers

  const SECOND: int := 1_000_000
  const HOUR: int := 3_600_000_000

  datatype SentEmail = SentEmail(timestamp: DateTime, recipient: string, clientIpAddress: string)

  /** `maxPerHour` of 0 or less disables the hourly limit; the delay is in seconds. */
  datatype Config = Config(cooldownDelay: nat, maxPerHour: int)
  {
    function Cooldown(): int { cooldownDelay * SECOND }
  }

  datatype Request = Request(now: DateTime, clientIpAddress: string, recipient: string)

  function Mail(request: Request): SentEmail
  {
    SentEmail(request.now, request.recipient, request.clientIpAddress)
  }

  // ---------- the decision ----------

  predicate Relevant(mail: SentEmail, request: Request)
  {
    mail.recipient == request.recipient
    || (request.clientIpAddress != "" && mail.clientIpAddress == request.clientIpAddress)
  }

  function Select(mails: seq<SentEmail>, request: Request): seq<SentEmail>
  {
    if mails == [] then []
    else Select(mails[..|mails| - 1], request)
         + (if Relevant(mails[|mails| - 1], request) then [mails[|mails| - 1]] else [])
  }

  /** The mails of the last hour. */
  function Recent(mails: seq<SentEmail>, now: DateTime): seq<SentEmail>
  {
    if mails == [] then []
    else Recent(mails[..|mails| - 1], now)
         + (if now - HOUR < mails[|mails| - 1].timestamp then [mails[|mails| - 1]] else [])
  }

  /** None when the mail may be sent, otherwise the time to wait for. */
  function Decide(config: Config, lastHour: seq<SentEmail>, request: Request): Option<DateTime>
  {
    var relevant := Select(lastHour, request);
    if relevant == [] then None
    else if request.now - relevant[|relevant| - 1].timestamp < config.Cooldown() then
      Some(relevant[|relevant| - 1].timestamp + config.Cooldown())
    else if config.maxPerHour > 0 && |relevant| >= config.maxPerHour then
      Some(relevant[0].timestamp + HOUR)
    else None
  }

  ghost predicate Sorted(mails: seq<SentEmail>)
  {
    forall i, j | 0 <= i < j < |mails| :: mails[i].timestamp <= mails[j].timestamp
  }

  ghost predicate NotAfter(mails: seq<SentEmail>, now: DateTime)
  {
    forall i | 0 <= i < |mails| :: mails[i].timestamp <= now
  }

  // ---------- the limiter ----------

  lemma {:induction false} RecentOfSorted(mails: seq<SentEmail>, now: DateTime, n: nat)
    requires n <= |mails|
    requires forall i | 0 <= i < n :: mails[i].timestamp <= now - HOUR
    requires forall i | n <= i < |mails| :: now - HOUR < mails[i].timestamp
    ensures Recent(mails, now) == mails[n..]
  {
    if mails != [] {
      var k := |mails| - 1;
      if n <= k {
        RecentOfSorted(mails[..k], now, n);
        assert mails[..k][n..] + [mails[k]] == mails[n..];
      } else {
        RecentOfSorted(mails[..k], now, k);
      }
    }
  }

  lemma {:induction false} RecentConcat(a: seq<SentEmail>, b: seq<SentEmail>, now: DateTime)
    ensures Recent(a + b, now) == Recent(a, now) + Recent(b, now)
  {
    if b == [] {
      assert a + b == a;
    } else {
      var k := |b| - 1;
      assert (a + b)[..|a + b| - 1] == a + b[..k];
      RecentConcat(a, b[..k], now);
      var tail := if now - HOUR < b[k].timestamp then [b[k]] else [];
      assert (Recent(a, now) + Recent(b[..k], now)) + tail == Recent(a, now) + (Recent(b[..k], now) + tail);
    }
  }

  lemma RecentOfOneMore(mails: seq<SentEmail>, mail: SentEmail, now: DateTime)
    requires now - HOUR < mail.timestamp
    ensures Recent(mails + [mail], now) == Recent(mails, now) + [mail]
  {
  }

  lemma {:induction false} RecentOfRecent(mails: seq<SentEmail>, earlier: DateTime, now: DateTime)
    requires earlier <= now
    ensures Recent(Recent(mails, earlier), now) == Recent(mails, now)
  {
    if mails != [] {
      var k := |mails| - 1;
      RecentOfRecent(mails[..k], earlier, now);
      var tail := if earlier - HOUR < mails[k].timestamp then [mails[k]] else [];
      RecentConcat(Recent(mails[..k], earlier), tail, now);
      assert Recent([mails[k]], now) == (if now - HOUR < mails[k].timestamp then [mails[k]] else []) by {
        assert [mails[k]][..0] == [];
      }
    }
  }

  class EmailRateLimiter {
    const config: Config
    var lastSentMails: seq<SentEmail>
    ghost var accepted: seq<SentEmail>
    ghost var lastNow: DateTime

    ghost predicate Valid()
      reads this
    {
      && Sorted(accepted)
      && NotAfter(accepted, lastNow)
      && lastSentMails == Recent(accepted, lastNow)
    }

    constructor (config: Config, ghost now: DateTime)
      ensures Valid() && this.config == config && accepted == [] && lastNow == now
    {
      this.config := config;
      lastSentMails, accepted, lastNow := [], [], now;
    }

    /** Decides on the pruned queue what the whole history of accepted mails calls for. */
    method RegisterSendIntent(request: Request) returns (waitUntil: Option<DateTime>)
      requires Valid() && lastNow <= request.now
      modifies this
      ensures Valid() && lastNow == request.now
      ensures waitUntil == Decide(config, Recent(old(accepted), request.now), request)
      ensures accepted == Process(config, old(accepted), request)
    {
      hide Recent, Select, Decide;
      RecentOfRecent(accepted, lastNow, request.now);
      ghost var before := lastSentMails;
      SortedRecent(accepted, lastNow);
      ghost var n := 0;
      while lastSentMails != [] && lastSentMails[0].timestamp <= request.now - HOUR
        invariant 0 <= n <= |before| && lastSentMails == before[n..]
        invariant forall i | 0 <= i < n :: before[i].timestamp <= request.now - HOUR
        invariant accepted == old(accepted)
        decreases |lastSentMails|
      {
        lastSentMails := lastSentMails[1..];
        n := n + 1;
      }
      RecentOfSorted(before, request.now, n);
      waitUntil := Decide(config, lastSentMails, request);
      if waitUntil.None? {
        RecentOfOneMore(accepted, Mail(request), request.now);
        lastSentMails := lastSentMails + [Mail(request)];
        accepted := accepted + [Mail(request)];
      }
      lastNow := request.now;
    }
  }

  lemma {:induction false} SortedRecent(mails: seq<SentEmail>, now: DateTime)
    requires Sorted(mails)
    ensures Sorted(Recent(mails, now))
    ensures forall i | 0 <= i < |Recent(mails, now)| :: Recent(mails, now)[i] in mails
  {
    if mails != [] {
      var k := |mails| - 1;
      SortedRecent(mails[..k], now);
    }
  }

  // ---------- whole runs ----------

  /** The accepted mails after one more request. */
  function Process(config: Config, accepted: seq<SentEmail>, request: Request): seq<SentEmail>
  {
    if Decide(config, Recent(accepted, request.now), request).None? then accepted + [Mail(request)] else accepted
  }

  function ProcessAll(config: Config, accepted: seq<SentEmail>, requests: seq<Request>): seq<SentEmail>
  {
    if requests == [] then accepted
    else Process(config, ProcessAll(config, accepted, requests[..|requests| - 1]), requests[|requests| - 1])
  }

  ghost predicate Chronological(requests: seq<Request>)
  {
    forall i, j | 0 <= i < j < |requests| :: requests[i].now <= requests[j].now
  }

  function AsRequest(mail: SentEmail): Request
  {
    Request(mail.timestamp, mail.clientIpAddress, mail.recipient)
  }

  /** Each mail was acceptable given the ones before it. */
  ghost predicate Admitted(config: Config, mails: seq<SentEmail>)
  {
    && Sorted(mails)
    && forall i | 0 <= i < |mails| ::
         Decide(config, Recent(mails[..i], mails[i].timestamp), AsRequest(mails[i])).None?
  }

  lemma AdmitOneMore(config: Config, mails: seq<SentEmail>, request: Request)
    requires Admitted(config, mails) && NotAfter(mails, request.now)
    ensures Admitted(config, Process(config, mails, request)) && NotAfter(Process(config, mails, request), request.now)
  {
    var after := Process(config, mails, request);
    forall i | 0 <= i < |after|
      ensures Decide(config, Recent(after[..i], after[i].timestamp), AsRequest(after[i])).None?
    {
      if i < |mails| {
        assert after[..i] == mails[..i];
      } else {
        assert after[..i] == mails;
      }
    }
  }

  lemma {:induction false} RunsAreAdmitted(config: Config, requests: seq<Request>, now: DateTime)
    requires Chronological(requests) && forall i | 0 <= i < |requests| :: requests[i].now <= now
    ensures Admitted(config, ProcessAll(config, [], requests))
    ensures NotAfter(ProcessAll(config, [], requests), now)
  {
    if requests != [] {
      var k := |requests| - 1;
      RunsAreAdmitted(config, requests[..k], requests[k].now);
      AdmitOneMore(config, ProcessAll(config, [], requests[..k]), requests[k]);
    }
  }

  // ---------- the hourly limit ----------

  datatype Party = Recipient(name: string) | Address(ip: string)

  predicate Concerns(mail: SentEmail, party: Party)
  {
    match party
    case Recipient(name) => mail.recipient == name
    case Address(ip) => mail.clientIpAddress == ip
  }

  /** How many mails of one party fall in the hour that ends at `t`. */
  function InWindow(mails: seq<SentEmail>, t: DateTime, party: Party): nat
  {
    if mails == [] then 0
    else
      var last := mails[|mails| - 1];
      InWindow(mails[..|mails| - 1], t, party)
      + (if t - HOUR < last.timestamp <= t && Concerns(last, party) then 1 else 0)
  }

  lemma {:induction false} WindowIsRelevant(mails: seq<SentEmail>, t: DateTime, party: Party, request: Request)
    requires request.now <= t && NotAfter(mails, request.now)
    requires || party == Recipient(request.recipient)
             || (party == Address(request.clientIpAddress) && request.clientIpAddress != "")
    ensures InWindow(mails, t, party) <= |Select(Recent(mails, request.now), request)|
  {
    if mails != [] {
      var k := |mails| - 1;
      WindowIsRelevant(mails[..k], t, party, request);
      var last := if request.now - HOUR < mails[k].timestamp then [mails[k]] else [];
      SelectConcat(Recent(mails[..k], request.now), last, request);
      assert [mails[k]][..0] == [];
    }
  }

  lemma {:induction false} SelectConcat(a: seq<SentEmail>, b: seq<SentEmail>, request: Request)
    ensures Select(a + b, request) == Select(a, request) + Select(b, request)
  {
    if b == [] {
      assert a + b == a;
    } else {
      var k := |b| - 1;
      assert (a + b)[..|a + b| - 1] == a + b[..k];
      SelectConcat(a, b[..k], request);
      var tail := if Relevant(b[k], request) then [b[k]] else [];
      assert (Select(a, request) + Select(b[..k], request)) + tail
             == Select(a, request) + (Select(b[..k], request) + tail);
    }
  }

  lemma PrefixIsAdmitted(config: Config, mails: seq<SentEmail>, n: nat)
    requires Admitted(config, mails) && n <= |mails|
    ensures Admitted(config, mails[..n])
  {
    hide Select, Recent, Decide;
    var before := mails[..n];
    forall i | 0 <= i < n ensures Decide(config, Recent(before[..i], before[i].timestamp), AsRequest(before[i])).None? {
      assert before[..i] == mails[..i];
    }
  }

  lemma {:induction false} AdmittedWindow(config: Config, mails: seq<SentEmail>, t: DateTime, party: Party)
    requires Admitted(config, mails) && config.maxPerHour > 0 && party != Address("")
    ensures InWindow(mails, t, party) <= config.maxPerHour
  {
    if mails != [] {
      var k := |mails| - 1;
      var before, last := mails[..k], mails[k];
      PrefixIsAdmitted(config, mails, k);
      AdmittedWindow(config, before, t, party);
      if last.timestamp <= t && Concerns(last, party) {
        WindowIsRelevant(before, t, party, AsRequest(last));
      }
    }
  }

  /** Over any run, every hour holds at most `maxPerHour` accepted mails for a recipient, and at most
      as many for a known client address. */
  lemma HourlyLimitHolds(config: Config, requests: seq<Request>, t: DateTime, party: Party)
    requires Chronological(requests) && config.maxPerHour > 0 && party != Address("")
    ensures InWindow(ProcessAll(config, [], requests), t, party) <= config.maxPerHour
  {
    if requests != [] {
      RunsAreAdmitted(config, requests, requests[|requests| - 1].now);
      AdmittedWindow(config, ProcessAll(config, [], requests), t, party);
    }
  }

  // ---------- the cooldown ----------

  lemma {:induction false} RecentKeeps(mails: seq<SentEmail>, now: DateTime, i: nat)
    requires i < |mails| && now - HOUR < mails[i].timestamp
    ensures mails[i] in Recent(mails, now)
  {
    var k := |mails| - 1;
    if i < k {
      RecentKeeps(mails[..k], now, i);
    }
  }

  /** Selecting keeps the order, and what is selected is relevant. */
  lemma {:induction false} SelectKeeps(mails: seq<SentEmail>, request: Request, mail: SentEmail)
    requires Sorted(mails) && mail in mails && Relevant(mail, request)
    ensures mail in Select(mails, request)
    ensures var relevant := Select(mails, request); mail.timestamp <= relevant[|relevant| - 1].timestamp
  {
    var k := |mails| - 1;
    if mail != mails[k] {
      assert mail in mails[..k];
      SelectKeeps(mails[..k], request, mail);
      SelectIsPart(mails[..k], request);
    }
  }

  lemma {:induction false} SelectIsPart(mails: seq<SentEmail>, request: Request)
    ensures forall i | 0 <= i < |Select(mails, request)| ::
              Select(mails, request)[i] in mails && Relevant(Select(mails, request)[i], request)
  {
    if mails != [] { SelectIsPart(mails[..|mails| - 1], request); }
  }

  lemma NotDecidedBefore(config: Config, before: seq<SentEmail>, i: nat, request: Request)
    requires Sorted(before) && i < |before| && Relevant(before[i], request)
    requires request.now - HOUR < before[i].timestamp
    requires Decide(config, Recent(before, request.now), request).None?
    ensures request.now - before[i].timestamp >= config.Cooldown()
  {
    hide Recent, Select;
    RecentKeeps(before, request.now, i);
    SortedRecent(before, request.now);
    SelectKeeps(Recent(before, request.now), request, before[i]);
  }

  lemma AdmittedCooldown(config: Config, mails: seq<SentEmail>, i: nat, j: nat)
    requires Admitted(config, mails) && i < j < |mails| && Relevant(mails[i], AsRequest(mails[j]))
    ensures || mails[j].timestamp - mails[i].timestamp >= config.Cooldown()
            || mails[j].timestamp - mails[i].timestamp >= HOUR
  {
    hide Select, Recent, Decide;
    var request, before := AsRequest(mails[j]), mails[..j];
    if request.now - HOUR < mails[i].timestamp {
      assert before[i] == mails[i];
      NotDecidedBefore(config, before, i, request);
    }
  }

  /** Two accepted mails, the later of which shares the recipient or the known address of the
      earlier, are at least the cooldown apart, or one hour if the cooldown is longer. */
  lemma CooldownHolds(config: Config, requests: seq<Request>, i: nat, j: nat)
    requires Chronological(requests)
    requires var mails := ProcessAll(config, [], requests);
             i < j < |mails| && Relevant(mails[i], AsRequest(mails[j]))
    ensures var mails := ProcessAll(config, [], requests);
            || mails[j].timestamp - mails[i].timestamp >= config.Cooldown()
            || mails[j].timestamp - mails[i].timestamp >= HOUR
  {
    RunsAreAdmitted(config, requests, requests[|requests| - 1].now);
    hide ProcessAll;
    AdmittedCooldown(config, ProcessAll(config, [], requests), i, j);
  }

  // ---------- the answer to a refused request ----------

  lemma {:induction false} ProcessAllExtends(config: Config, mails: seq<SentEmail>, requests: seq<Request>)
    ensures mails <= ProcessAll(config, mails, requests)
  {
    if requests != [] { ProcessAllExtends(config, mails, requests[..|requests| - 1]); }
  }

  lemma {:induction false} MoreStaysAdmitted(config: Config, mails: seq<SentEmail>, requests: seq<Request>,
    now: DateTime)
    requires Admitted(config, mails) && Chronological(requests)
    requires forall i | 0 <= i < |requests| :: NotAfter(mails, requests[i].now) && requests[i].now <= now
    requires NotAfter(mails, now)
    ensures Admitted(config, ProcessAll(config, mails, requests)) && NotAfter(ProcessAll(config, mails, requests), now)
  {
    if requests != [] {
      var k := |requests| - 1;
      MoreStaysAdmitted(config, mails, requests[..k], requests[k].now);
      AdmitOneMore(config, ProcessAll(config, mails, requests[..k]), requests[k]);
    }
  }

  /** The time a refused request is told to wait for lies in the future. */
  lemma WaitIsInTheFuture(config: Config, accepted: seq<SentEmail>, request: Request)
    requires Decide(config, Recent(accepted, request.now), request).Some?
    ensures request.now < Decide(config, Recent(accepted, request.now), request).value
  {
    hide Recent, Select;
    SelectIsPart(Recent(accepted, request.now), request);
    RecentIsRecent(accepted, request.now);
  }

  lemma {:induction false} RecentIsRecent(mails: seq<SentEmail>, now: DateTime)
    ensures forall i | 0 <= i < |Recent(mails, now)| ::
              Recent(mails, now)[i] in mails && now - HOUR < Recent(mails, now)[i].timestamp
  {
    if mails != [] { RecentIsRecent(mails[..|mails| - 1], now); }
  }

  lemma {:induction false} SelectSorted(mails: seq<SentEmail>, request: Request)
    requires Sorted(mails)
    ensures Sorted(Select(mails, request))
  {
    if mails != [] {
      var k := |mails| - 1;
      SelectSorted(mails[..k], request);
      SelectIsPart(mails[..k], request);
    }
  }

  lemma {:induction false} SelectSameParty(mails: seq<SentEmail>, request: Request, later: Request)
    requires later.recipient == request.recipient && later.clientIpAddress == request.clientIpAddress
    ensures Select(mails, later) == Select(mails, request)
  {
    if mails != [] { SelectSameParty(mails[..|mails| - 1], request, later); }
  }

  lemma SelectLast(mails: seq<SentEmail>, request: Request)
    requires mails != []
    ensures var k := |mails| - 1;
            Select(mails, request)
            == Select(mails[..k], request) + (if Relevant(mails[k], request) then [mails[k]] else [])
  {
  }

  lemma RecentLast(mails: seq<SentEmail>, now: DateTime)
    requires mails != []
    ensures var k := |mails| - 1;
            Recent(mails, now) == Recent(mails[..k], now) + (if now - HOUR < mails[k].timestamp then [mails[k]] else [])
  {
  }

  lemma SelectOne(mail: SentEmail, request: Request)
    ensures Select([mail], request) == if Relevant(mail, request) then [mail] else []
    ensures Select([], request) == []
  {
    assert [mail][..0] == [];
  }

  lemma {:induction false} SelectedSurvive(mails: seq<SentEmail>, request: Request, now: DateTime)
    requires forall mail | mail in Select(mails, request) :: now - HOUR < mail.timestamp
    ensures Select(Recent(mails, now), request) == Select(mails, request)
  {
    hide Select, Recent, Relevant;
    if mails == [] {
      RecentOfNothing(now);
    } else {
      var k := |mails| - 1;
      SelectLast(mails, request);
      RecentLast(mails, now);
      SelectOne(mails[k], request);
      SelectedSurvive(mails[..k], request, now);
      SelectConcat(Recent(mails[..k], now), if now - HOUR < mails[k].timestamp then [mails[k]] else [], request);
    }
  }

  lemma RecentOfNothing(now: DateTime)
    ensures Recent([], now) == []
  {
  }

  /** More history never makes fewer mails relevant. */
  lemma MoreHistoryMoreRelevant(mails: seq<SentEmail>, grown: seq<SentEmail>, now: DateTime, request: Request)
    requires mails <= grown
    ensures |Select(Recent(mails, now), request)| <= |Select(Recent(grown, now), request)|
  {
    var more := grown[|mails|..];
    assert grown == mails + more;
    RecentConcat(mails, more, now);
    SelectConcat(Recent(mails, now), Recent(more, now), request);
  }

  lemma CooldownKeepsRefusing(config: Config, mails: seq<SentEmail>, mail: SentEmail, later: Request)
    requires Sorted(mails) && mail in mails && Relevant(mail, later)
    requires later.now - mail.timestamp < config.Cooldown() <= HOUR
    ensures Decide(config, Recent(mails, later.now), later).Some?
  {
  }

  lemma FullHourKeepsRefusing(config: Config, mails: seq<SentEmail>, grown: seq<SentEmail>, request: Request,
    later: Request)
    requires Sorted(mails) && mails <= grown && request.now <= later.now
    requires later.recipient == request.recipient && later.clientIpAddress == request.clientIpAddress
    requires var relevant := Select(Recent(mails, request.now), request);
             0 < config.maxPerHour <= |relevant| && later.now < relevant[0].timestamp + HOUR
    ensures Decide(config, Recent(grown, later.now), later).Some?
  {
    hide Recent, Select;
    var lastHour := Recent(mails, request.now);
    SortedRecent(mails, request.now);
    SelectSorted(lastHour, request);
    SelectedSurvive(lastHour, request, later.now);
    RecentOfRecent(mails, request.now, later.now);
    SelectSameParty(lastHour, request, later);
    SelectSameParty(Recent(mails, later.now), request, later);
    MoreHistoryMoreRelevant(mails, grown, later.now, later);
  }

  lemma StillRefused(config: Config, mails: seq<SentEmail>, grown: seq<SentEmail>, request: Request, later: Request)
    requires Sorted(mails) && Sorted(grown) && mails <= grown && config.Cooldown() <= HOUR
    requires later.recipient == request.recipient && later.clientIpAddress == request.clientIpAddress
    requires var answer := Decide(config, Recent(mails, request.now), request);
             answer.Some? && request.now <= later.now < answer.value
    ensures Decide(config, Recent(grown, later.now), later).Some?
  {
    hide Recent, Select;
    var lastHour := Recent(mails, request.now);
    var relevant := Select(lastHour, request);
    var latest := relevant[|relevant| - 1];
    if request.now - latest.timestamp < config.Cooldown() {
      SelectIsPart(lastHour, request);
      RecentIsRecent(mails, request.now);
      assert latest in grown;
      CooldownKeepsRefusing(config, grown, latest, later);
    } else {
      FullHourKeepsRefusing(config, mails, grown, request, later);
    }
  }

  /** With a cooldown of at most one hour, whoever is told to wait is refused until then, whatever
      other requests are made in between. */
  lemma RefusedUntilWait(config: Config, accepted: seq<SentEmail>, request: Request, between: seq<Request>,
    later: Request)
    requires Admitted(config, accepted) && NotAfter(accepted, request.now) && config.Cooldown() <= HOUR
    requires Chronological(between) && forall i | 0 <= i < |between| :: request.now <= between[i].now <= later.now
    requires later.recipient == request.recipient && later.clientIpAddress == request.clientIpAddress
    requires var answer := Decide(config, Recent(accepted, request.now), request);
             answer.Some? && request.now <= later.now < answer.value
    ensures Decide(config, Recent(ProcessAll(config, accepted, between), later.now), later).Some?
  {
    hide Recent, Select, Decide, ProcessAll;
    ProcessAllExtends(config, accepted, between);
    MoreStaysAdmitted(config, accepted, between, later.now);
    StillRefused(config, accepted, ProcessAll(config, accepted, between), request, later);
  }

  /** The bound of one hour is exact: with any longer cooldown, a request refused until some time is
      accepted before it. */
  lemma LongCooldownIsNotHonoured(config: Config, first: Request)
    requires HOUR < config.Cooldown()
    ensures var accepted := Process(config, [], first);
            var later := first.(now := first.now + HOUR);
            && Decide(config, Recent(accepted, first.now), first) == Some(first.now + config.Cooldown())
            && later.now < first.now + config.Cooldown()
            && Process(config, accepted, later) == accepted + [Mail(later)]
  {
    var mail, later := Mail(first), first.(now := first.now + HOUR);
    assert [mail][..0] == [] && [] + [mail] == [mail];
    assert Recent([mail], first.now) == [mail];
    assert Select([mail], first) == [mail];
    assert Recent([mail], later.now) == [];
  }

  // ---------- the decision, in so many words ----------

  /** A mail of the last hour to the same recipient, or from the same address if that is known. */
  predicate Counts(mail: SentEmail, request: Request)
  {
    && (|| mail.recipient == request.recipient
        || (mail.clientIpAddress == request.clientIpAddress && mail.clientIpAddress != ""))
    && request.now - 60 * 60 * 1_000_000 < mail.timestamp
  }

  function CountRelevant(mails: seq<SentEmail>, request: Request): nat
  {
    if mails == [] then 0
    else CountRelevant(mails[..|mails| - 1], request) + (if Counts(mails[|mails| - 1], request) then 1 else 0)
  }

  lemma {:induction false} CountIsSelected(mails: seq<SentEmail>, request: Request)
    ensures |Select(Recent(mails, request.now), request)| == CountRelevant(mails, request)
  {
    if mails != [] {
      var k := |mails| - 1;
      CountIsSelected(mails[..k], request);
      RecentLast(mails, request.now);
      var last := if request.now - HOUR < mails[k].timestamp then [mails[k]] else [];
      SelectConcat(Recent(mails[..k], request.now), last, request);
      SelectOne(mails[k], request);
    }
  }

  /** Some mail that counts is too recent. */
  ghost predicate TooRecent(config: Config, accepted: seq<SentEmail>, request: Request)
  {
    exists mail | mail in accepted ::
      Counts(mail, request) && request.now - mail.timestamp < config.cooldownDelay * 1_000_000
  }

  ghost predicate TooMany(config: Config, accepted: seq<SentEmail>, request: Request)
  {
    0 < config.maxPerHour <= CountRelevant(accepted, request)
  }

  /** What is selected is what counts; the first is the oldest, the last the most recent. */
  lemma SelectedCounts(accepted: seq<SentEmail>, request: Request, mail: SentEmail)
    requires Sorted(accepted)
    ensures var relevant := Select(Recent(accepted, request.now), request);
            && (mail in relevant <==> mail in accepted && Counts(mail, request))
            && (mail in relevant ==>
                  relevant[0].timestamp <= mail.timestamp <= relevant[|relevant| - 1].timestamp)
  {
    hide Select, Recent;
    var lastHour := Recent(accepted, request.now);
    var relevant := Select(lastHour, request);
    SortedRecent(accepted, request.now);
    RecentIsRecent(accepted, request.now);
    SelectIsPart(lastHour, request);
    SelectSorted(lastHour, request);
    if mail in accepted && Counts(mail, request) {
      var i :| 0 <= i < |accepted| && accepted[i] == mail;
      RecentKeeps(accepted, request.now, i);
      SelectKeeps(lastHour, request, mail);
    }
    if mail in relevant { var i :| 0 <= i < |relevant| && relevant[i] == mail; }
  }

  /** Exactly when a mail may be sent: none that counts is too recent, and not too many count. What is
      then remembered is that mail. */
  lemma AcceptedIff(config: Config, accepted: seq<SentEmail>, request: Request)
    requires Sorted(accepted)
    ensures Decide(config, Recent(accepted, request.now), request).None?
       <==> !TooRecent(config, accepted, request) && !TooMany(config, accepted, request)
    ensures Process(config, accepted, request)
         == if TooRecent(config, accepted, request) || TooMany(config, accepted, request) then accepted
            else accepted + [SentEmail(
                   timestamp := request.now,
                   recipient := request.recipient,
                   clientIpAddress := request.clientIpAddress)]
  {
    hide Select, Recent;
    var relevant := Select(Recent(accepted, request.now), request);
    CountIsSelected(accepted, request);
    if relevant != [] { SelectedCounts(accepted, request, relevant[|relevant| - 1]); }
    if TooRecent(config, accepted, request) {
      var mail :| mail in accepted && Counts(mail, request) && request.now - mail.timestamp < config.Cooldown();
      SelectedCounts(accepted, request, mail);
    }
  }

  predicate SameParties(later: Request, request: Request)
  {
    later.recipient == request.recipient && later.clientIpAddress == request.clientIpAddress
  }

  lemma {:induction false} CountShrinks(mails: seq<SentEmail>, request: Request, later: Request)
    requires SameParties(later, request) && request.now <= later.now
    ensures CountRelevant(mails, later) <= CountRelevant(mails, request)
    ensures CountRelevant(mails, later) == CountRelevant(mails, request)
       <==> forall mail | mail in mails && Counts(mail, request) :: Counts(mail, later)
  {
    if mails != [] {
      var k := |mails| - 1;
      CountShrinks(mails[..k], request, later);
      assert forall mail | mail in mails :: mail in mails[..k] || mail == mails[k];
      assert forall mail | mail in mails[..k] :: mail in mails;
      assert mails[k] in mails;
    }
  }

  /** The announced time of a refusal for the cooldown is when the last mail that counts is no longer too
      recent; with a longer cooldown than an hour, that mail stops counting before. */
  lemma CooldownWaitIsTight(config: Config, accepted: seq<SentEmail>, request: Request, later: Request)
    requires Sorted(accepted) && TooRecent(config, accepted, request)
    requires SameParties(later, request) && request.now <= later.now
    ensures var answer := Decide(config, Recent(accepted, request.now), request);
            && answer.Some?
            && (TooRecent(config, accepted, later)
                <==> later.now < answer.value && later.now < answer.value - config.Cooldown() + HOUR)
  {
    hide Select, Recent;
    var relevant := Select(Recent(accepted, request.now), request);
    var recent :| recent in accepted && Counts(recent, request) && request.now - recent.timestamp < config.Cooldown();
    SelectedCounts(accepted, request, recent);
    var latest := relevant[|relevant| - 1];
    SelectedCounts(accepted, request, latest);
    if TooRecent(config, accepted, later) {
      var mail :| mail in accepted && Counts(mail, later) && later.now - mail.timestamp < config.Cooldown();
      assert Counts(mail, request);
      SelectedCounts(accepted, request, mail);
    }
    if later.now < latest.timestamp + config.Cooldown() && later.now < latest.timestamp + HOUR {
      assert Counts(latest, later);
    }
  }

  /** The announced time of a refusal for the hourly limit is when the first mail that counts leaves the
      window: all of them count until then, and fewer from then on. */
  lemma LimitWaitIsTight(config: Config, accepted: seq<SentEmail>, request: Request, later: Request)
    requires Sorted(accepted) && !TooRecent(config, accepted, request) && TooMany(config, accepted, request)
    requires SameParties(later, request) && request.now <= later.now
    ensures var answer := Decide(config, Recent(accepted, request.now), request);
            && answer.Some?
            && (CountRelevant(accepted, later) == CountRelevant(accepted, request) <==> later.now < answer.value)
            && CountRelevant(accepted, later) <= CountRelevant(accepted, request)
  {
    hide Select, Recent, CountRelevant;
    AcceptedIff(config, accepted, request);
    CountIsSelected(accepted, request);
    CountShrinks(accepted, request, later);
    var relevant := Select(Recent(accepted, request.now), request);
    SelectedCounts(accepted, request, relevant[0]);
    SelectedCounts(accepted, request, relevant[|relevant| - 1]);
    forall mail | mail in accepted && Counts(mail, request) && later.now < relevant[0].timestamp + HOUR
      ensures Counts(mail, later)
    {
      SelectedCounts(accepted, request, mail);
    }
  }

  /** Whoever has sent exactly as many mails as are allowed, and comes back at the announced time, is let
      through if nothing was accepted meanwhile. */
  lemma AcceptedAtWait(config: Config, accepted: seq<SentEmail>, request: Request, later: Request)
    requires Sorted(accepted) && !TooRecent(config, accepted, request)
    requires 0 < config.maxPerHour == CountRelevant(accepted, request) && SameParties(later, request)
    requires request.now <= later.now
    requires Decide(config, Recent(accepted, request.now), request) == Some(later.now)
    ensures Process(config, accepted, later) == accepted + [Mail(later)]
  {
    hide Decide, CountRelevant, Recent, Select;
    LimitWaitIsTight(config, accepted, request, later);
    AcceptedIff(config, accepted, later);
  }
}
