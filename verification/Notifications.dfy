/**
 * Which alerts are sent to people, and how many an hour
 * (apps/api/src/notifications/routing.ts, apps/api/src/notifications/notifications.service.ts).
 */
module Notifications {
  import opened Wrappers
  import opened Overlap

  const HOUR := 3_600_000
  const DAY_MINUTES := 1440
  const DEFAULT_MAX_PER_HOUR := 20

  datatype Severity = Low | Medium | High | Critical

  function Rank(s: Severity): nat {
    match s
    case Low => 0
    case Medium => 1
    case High => 2
    case Critical => 3
  }

  datatype Filters = Filters(minSeverity: Option<Severity>, types: seq<string>)

  datatype Webhook = Webhook(url: string, title: Option<string>, filters: Filters)

  datatype Email = Email(recipients: seq<string>, filters: Filters)

  type MinuteOfDay = m: nat | m < DAY_MINUTES

  datatype QuietHours = QuietHours(start: MinuteOfDay, end: MinuteOfDay)

  datatype Config = Config(webhooks: seq<Webhook>, email: Option<Email>, quiet: Option<QuietHours>, maxPerHour: Option<nat>)

  datatype Alert = Alert(companyId: nat, kind: string, severity: Severity)

  datatype Label = NoChannel | AllChannels | Named(text: string) | Numbered(number: nat) | Mail(recipients: nat)

  datatype Reason = BelowThreshold | TypeNotSelected | InQuietHours | RateLimited | NotConfigured

  datatype Target = WebhookTarget(url: string, title: Label) | EmailTarget(recipients: seq<string>, title: Label)

  datatype Routing = Routing(targets: seq<Target>, suppressed: seq<(Label, Reason)>)

  // ------------------------------------------------------------------------
  //  Quiet hours
  // ------------------------------------------------------------------------

  /** `isQuietHour`; no local time when the zone is unknown. */
  predicate IsQuietHour(q: QuietHours, local: Option<MinuteOfDay>) {
    if local.None? then false
    else if q.start <= q.end then q.start <= local.value < q.end
    else local.value >= q.start || local.value < q.end
  }

  /** Minutes on the clock from `a` forward to `b`. */
  function Forward(a: MinuteOfDay, b: MinuteOfDay): MinuteOfDay {
    (b - a + DAY_MINUTES) % DAY_MINUTES
  }

  /** Going round the clock from the start, the quiet minutes are those met before the end. */
  lemma QuietMinutesAreCyclic(q: QuietHours, local: MinuteOfDay)
    ensures IsQuietHour(q, Some(local)) <==> Forward(q.start, local) < Forward(q.start, q.end)
  {
  }

  // ------------------------------------------------------------------------
  //  Routing
  // ------------------------------------------------------------------------

  /** `accepts`: why a channel does not take the alert. */
  function Refusal(f: Filters, alert: Alert): Option<Reason> {
    var minimum := if f.minSeverity.Some? then f.minSeverity.value else High;
    if Rank(alert.severity) < Rank(minimum) then Some(BelowThreshold)
    else if f.types != [] && alert.kind !in f.types then Some(TypeNotSelected)
    else None
  }

  function LabelOf(w: Webhook, index: nat): Label {
    if w.title.Some? then Named(w.title.value) else Numbered(index + 1)
  }

  /** What is common to all channels: no configuration, quiet hours, or the ceiling. */
  function Withheld(config: Option<Config>, alert: Alert, quiet: bool, sent: nat): Option<(Label, Reason)> {
    if config.None? || (config.value.webhooks == [] && config.value.email.None?) then Some((NoChannel, NotConfigured))
    else if alert.severity != Critical && quiet then Some((AllChannels, InQuietHours))
    else if alert.severity != Critical && sent >= Ceiling(config.value) then Some((AllChannels, RateLimited))
    else None
  }

  function Ceiling(config: Config): nat {
    if config.maxPerHour.Some? then config.maxPerHour.value else DEFAULT_MAX_PER_HOUR
  }

  predicate Quiet(config: Option<Config>, local: Option<MinuteOfDay>) {
    config.Some? && config.value.quiet.Some? && IsQuietHour(config.value.quiet.value, local)
  }

  /** The channels of a configuration, in the order they are considered. */
  datatype Channel = Hook(webhook: Webhook, index: nat) | Mailbox(email: Email)

  function Channels(config: Config): (r: seq<Channel>)
    ensures |r| == |config.webhooks| + (if config.email.Some? then 1 else 0)
    ensures forall i :: 0 <= i < |config.webhooks| ==> r[i] == Hook(config.webhooks[i], i)
    ensures config.email.Some? ==> r[|config.webhooks|] == Mailbox(config.email.value)
  {
    seq(|config.webhooks|, i requires 0 <= i < |config.webhooks| => Hook(config.webhooks[i], i)) +
    (if config.email.Some? then [Mailbox(config.email.value)] else [])
  }

  function RefusalBy(c: Channel, alert: Alert): Option<Reason> {
    match c
    case Hook(w, _) => Refusal(w.filters, alert)
    case Mailbox(e) => Refusal(e.filters, alert)
  }

  function LabelFor(c: Channel): Label {
    match c
    case Hook(w, i) => LabelOf(w, i)
    case Mailbox(e) => Mail(|e.recipients|)
  }

  function TargetFor(c: Channel): Target {
    match c
    case Hook(w, _) => WebhookTarget(w.url, LabelFor(c))
    case Mailbox(e) => EmailTarget(e.recipients, LabelFor(c))
  }

  function TargetsAmong(channels: seq<Channel>, alert: Alert): (r: seq<Target>)
    ensures forall t :: t in r <==> exists c :: c in channels && RefusalBy(c, alert).None? && TargetFor(c) == t
  {
    if channels == [] then []
    else
      var last := channels[|channels| - 1];
      var before := TargetsAmong(channels[..|channels| - 1], alert);
      assert forall c :: c in channels <==> c in channels[..|channels| - 1] || c == last;
      if RefusalBy(last, alert).None? then before + [TargetFor(last)] else before
  }

  function RefusedAmong(channels: seq<Channel>, alert: Alert): (r: seq<(Label, Reason)>)
    ensures |r| + |TargetsAmong(channels, alert)| == |channels|
  {
    if channels == [] then []
    else
      var last := channels[|channels| - 1];
      var before := RefusedAmong(channels[..|channels| - 1], alert);
      if RefusalBy(last, alert).Some? then before + [(LabelFor(last), RefusalBy(last, alert).value)] else before
  }

  lemma NoChannelYet(alert: Alert)
    ensures TargetsAmong([], alert) == [] && RefusedAmong([], alert) == []
  {
  }

  lemma NextChannel(channels: seq<Channel>, i: nat, alert: Alert)
    requires i < |channels|
    ensures TargetsAmong(channels[..i + 1], alert) == TargetsAmong(channels[..i], alert) +
      (if RefusalBy(channels[i], alert).None? then [TargetFor(channels[i])] else [])
    ensures RefusedAmong(channels[..i + 1], alert) == RefusedAmong(channels[..i], alert) +
      (if RefusalBy(channels[i], alert).Some? then [(LabelFor(channels[i]), RefusalBy(channels[i], alert).value)] else [])
  {
    assert channels[..i + 1][..i] == channels[..i];
  }

  /** The decision of `routeAlert`, channel by channel. */
  function Route(config: Option<Config>, alert: Alert, quiet: bool, sent: nat): Routing {
    var withheld := Withheld(config, alert, quiet, sent);
    if withheld.Some? then Routing([], [withheld.value])
    else Routing(TargetsAmong(Channels(config.value), alert), RefusedAmong(Channels(config.value), alert))
  }

  method RouteWebhooks(config: Config, alert: Alert) returns (targets: seq<Target>, suppressed: seq<(Label, Reason)>)
    ensures targets == TargetsAmong(Channels(config)[..|config.webhooks|], alert)
    ensures suppressed == RefusedAmong(Channels(config)[..|config.webhooks|], alert)
  {
    hide TargetsAmong, RefusedAmong, Refusal;
    NoChannelYet(alert);
    targets, suppressed := [], [];
    ghost var channels := Channels(config);
    for i := 0 to |config.webhooks|
      invariant targets == TargetsAmong(channels[..i], alert)
      invariant suppressed == RefusedAmong(channels[..i], alert)
    {
      NextChannel(channels, i, alert);
      var webhook := config.webhooks[i];
      var title := LabelOf(webhook, i);
      var refusal := Refusal(webhook.filters, alert);
      if refusal.Some? {
        suppressed := suppressed + [(title, refusal.value)];
      } else {
        targets := targets + [WebhookTarget(webhook.url, title)];
      }
    }
  }

  /** Webhooks in order, then mail. */
  method RouteChannels(config: Config, alert: Alert) returns (targets: seq<Target>, suppressed: seq<(Label, Reason)>)
    ensures targets == TargetsAmong(Channels(config), alert) && suppressed == RefusedAmong(Channels(config), alert)
  {
    hide TargetsAmong, RefusedAmong, Refusal;
    ghost var channels := Channels(config);
    targets, suppressed := RouteWebhooks(config, alert);
    assert channels[..|channels|] == channels;
    if config.email.Some? {
      NextChannel(channels, |config.webhooks|, alert);
      var title := Mail(|config.email.value.recipients|);
      var refusal := Refusal(config.email.value.filters, alert);
      if refusal.Some? {
        suppressed := suppressed + [(title, refusal.value)];
      } else {
        targets := targets + [EmailTarget(config.email.value.recipients, title)];
      }
    }
  }

  method RouteAlert(config: Option<Config>, alert: Alert, local: Option<MinuteOfDay>, sent: nat) returns (r: Routing)
    ensures r == Route(config, alert, Quiet(config, local), sent)
  {
    hide TargetsAmong, RefusedAmong, Channels;
    if config.None? || (config.value.webhooks == [] && config.value.email.None?) {
      return Routing([], [(NoChannel, NotConfigured)]);
    }
    var cfg := config.value;
    var critical := alert.severity == Critical;
    if !critical && cfg.quiet.Some? && IsQuietHour(cfg.quiet.value, local) {
      return Routing([], [(AllChannels, InQuietHours)]);
    }
    var ceiling := if cfg.maxPerHour.Some? then cfg.maxPerHour.value else DEFAULT_MAX_PER_HOUR;
    if !critical && sent >= ceiling {
      return Routing([], [(AllChannels, RateLimited)]);
    }
    var targets, suppressed := RouteChannels(cfg, alert);
    r := Routing(targets, suppressed);
  }

  // ------------------------------------------------------------------------
  //  Sending
  // ------------------------------------------------------------------------

  /** An alert that reached somebody: `notifiedAt`. */
  datatype Notified = Notified(companyId: nat, at: int, critical: bool)

  type Table = seq<Notified>

  /** Alerts of the company notified at or after an instant, critical ones included. */
  function CountSince(sent: Table, companyId: nat, start: int): nat {
    if sent == [] then 0
    else
      var last := sent[|sent| - 1];
      CountSince(sent[..|sent| - 1], companyId, start) + (if last.companyId == companyId && last.at >= start then 1 else 0)
  }

  /** One call of `dispatch`; `works` says which targets are reached. */
  datatype Dispatch = Dispatch(
    alert: Alert, config: Option<Config>, local: Option<MinuteOfDay>, works: Target -> bool, now: int)

  /** The alert is sent: at least one target takes it and works. `seen` is the table when alerts were counted. */
  ghost predicate Delivers(seen: Table, d: Dispatch) {
    var sent := CountSince(seen, d.alert.companyId, d.now - HOUR);
    exists t :: t in Route(d.config, d.alert, Quiet(d.config, d.local), sent).targets && d.works(t)
  }

  ghost function Dispatched(seen: Table, sent: Table, d: Dispatch): Table {
    if Delivers(seen, d) then sent + [Notified(d.alert.companyId, d.now, d.alert.severity == Critical)] else sent
  }

  function WorkingAt(targets: seq<Target>, works: Target -> bool): set<nat> {
    set k: nat | k < |targets| && works(targets[k])
  }

  /** How many targets are served. */
  function Served(targets: seq<Target>, works: Target -> bool): (r: nat)
    ensures r == |WorkingAt(targets, works)|
  {
    if targets == [] then 0
    else
      var last := |targets| - 1;
      assert WorkingAt(targets, works) ==
        if works(targets[last]) then WorkingAt(targets[..last], works) + {last} else WorkingAt(targets[..last], works);
      Served(targets[..last], works) + (if works(targets[last]) then 1 else 0)
  }

  class NotificationService {
    var sent: Table

    constructor ()
      ensures sent == []
    {
      sent := [];
    }

    /** `deliver`, with no other dispatch under way. */
    method Deliver(d: Dispatch) returns (delivered: nat)
      modifies this
      ensures sent == Dispatched(old(sent), old(sent), d)
      ensures delivered > 0 <==> Delivers(old(sent), d)
      ensures var count := CountSince(old(sent), d.alert.companyId, d.now - 3_600_000);
        delivered == |WorkingAt(Route(d.config, d.alert, Quiet(d.config, d.local), count).targets, d.works)|
    {
      hide Served, WorkingAt, Route, Quiet, CountSince;
      NoneServed(d.works);
      var decision := RouteAlert(d.config, d.alert, d.local, CountSince(sent, d.alert.companyId, d.now - HOUR));
      delivered := 0;
      for i := 0 to |decision.targets|
        invariant delivered == Served(decision.targets[..i], d.works) && sent == old(sent)
      {
        NextServed(decision.targets, i, d.works);
        if d.works(decision.targets[i]) {
          delivered := delivered + 1;
        }
      }
      assert decision.targets[..|decision.targets|] == decision.targets;
      SomeServed(decision.targets, d.works);
      if delivered > 0 {
        sent := sent + [Notified(d.alert.companyId, d.now, d.alert.severity == Critical)];
      }
    }
  }

  lemma NextServed(targets: seq<Target>, i: nat, works: Target -> bool)
    requires i < |targets|
    ensures Served(targets[..i + 1], works) == Served(targets[..i], works) + (if works(targets[i]) then 1 else 0)
  {
    assert targets[..i + 1][..i] == targets[..i];
  }

  lemma NoneServed(works: Target -> bool)
    ensures Served([], works) == 0
  {
  }

  lemma SomeServed(targets: seq<Target>, works: Target -> bool)
    ensures Served(targets, works) > 0 <==> exists t :: t in targets && works(t)
  {
    if t :| t in targets && works(t) {
      var k :| 0 <= k < |targets| && targets[k] == t;
      assert k in WorkingAt(targets, works);
    } else {
      assert WorkingAt(targets, works) == {};
    }
  }

  /**
   * An alert is sent exactly when some channel accepts it and works, and it is
   * critical or neither quiet hours nor the ceiling hold it back.
   */
  lemma DeliversExactly(seen: Table, d: Dispatch)
    ensures Delivers(seen, d) <==>
      && d.config.Some?
      && (d.alert.severity == Critical || (
            && !Quiet(d.config, d.local)
            && CountSince(seen, d.alert.companyId, d.now - HOUR) < Ceiling(d.config.value)))
      && exists c :: c in Channels(d.config.value) && RefusalBy(c, d.alert).None? && d.works(TargetFor(c))
  {
    var sent := CountSince(seen, d.alert.companyId, d.now - HOUR);
    var quiet := Quiet(d.config, d.local);
    if Withheld(d.config, d.alert, quiet, sent).None? {
      var targets := TargetsAmong(Channels(d.config.value), d.alert);
      if c :| c in Channels(d.config.value) && RefusalBy(c, d.alert).None? && d.works(TargetFor(c)) {
        assert TargetFor(c) in targets;
        assert TargetFor(c) in Route(d.config, d.alert, quiet, sent).targets;
      }
    }
  }

  // ------------------------------------------------------------------------
  //  The hourly ceiling, over a run
  // ------------------------------------------------------------------------

  /**
   * Dispatches in the order they finish. Nobody waits for one to finish before
   * the next begins: `behind` others finish between its count and its own end.
   */
  datatype Step = Step(dispatch: Dispatch, behind: nat)

  ghost function After(run: seq<Step>, n: nat): Table
    requires n <= |run|
  {
    if n == 0 then []
    else
      var s := run[n - 1];
      Dispatched(After(run, SeenBy(n - 1, s.behind)), After(run, n - 1), s.dispatch)
  }

  function OrdinaryIn(sent: Table, companyId: nat, start: int, end: int): nat {
    if sent == [] then 0
    else
      var last := sent[|sent| - 1];
      OrdinaryIn(sent[..|sent| - 1], companyId, start, end) +
      (if last.companyId == companyId && !last.critical && start <= last.at <= end then 1 else 0)
  }

  lemma {:induction false} OrdinaryAreCounted(sent: Table, companyId: nat, start: int, end: int, since: int)
    requires since <= start
    ensures OrdinaryIn(sent, companyId, start, end) <= CountSince(sent, companyId, since)
  {
    if sent != [] {
      OrdinaryAreCounted(sent[..|sent| - 1], companyId, start, end, since);
    }
  }

  lemma AppendOne(sent: Table, x: Notified, companyId: nat, start: int, end: int)
    ensures OrdinaryIn(sent, companyId, start, end) <= OrdinaryIn(sent + [x], companyId, start, end)
    ensures OrdinaryIn(sent + [x], companyId, start, end) <= OrdinaryIn(sent, companyId, start, end) +
      (if x.companyId == companyId && !x.critical && start <= x.at <= end then 1 else 0)
  {
  }

  /** Each dispatch that finishes adds at most one. */
  lemma {:induction false} FewAdded(run: seq<Step>, m: nat, n: nat, companyId: nat, start: int, end: int)
    requires m <= n <= |run|
    ensures OrdinaryIn(After(run, n), companyId, start, end) <= OrdinaryIn(After(run, m), companyId, start, end) + (n - m)
  {
    hide Delivers, OrdinaryIn;
    if m < n {
      var s := run[n - 1].dispatch;
      FewAdded(run, m, n - 1, companyId, start, end);
      AppendOne(After(run, n - 1), Notified(s.alert.companyId, s.now, s.alert.severity == Critical), companyId, start, end);
    }
  }

  /**
   * Whatever the alerts, their dates and the configured channels: in any hour, a
   * company receives at most its ceiling of non-critical alerts, plus as many as
   * can overlap one dispatch. Without overlap, at most its ceiling.
   */
  lemma {:induction false} HourlyCeiling(run: seq<Step>, n: nat, companyId: nat, ceiling: nat, overlap: nat, start: int)
    requires n <= |run|
    requires forall i :: 0 <= i < n ==> run[i].behind <= overlap
    requires forall i :: 0 <= i < n && run[i].dispatch.alert.companyId == companyId && run[i].dispatch.config.Some? ==>
      Ceiling(run[i].dispatch.config.value) == ceiling
    ensures OrdinaryIn(After(run, n), companyId, start, start + 3_600_000) <= ceiling + overlap
  {
    hide Delivers, OrdinaryIn, Quiet, Channels, RefusalBy, TargetFor;
    if n == 0 {
      NothingSent(companyId, start, start + HOUR);
    } else {
      HourlyCeiling(run, n - 1, companyId, ceiling, overlap, start);
      var Step(d, behind) := run[n - 1];
      var m := SeenBy(n - 1, behind);
      var row := Notified(d.alert.companyId, d.now, d.alert.severity == Critical);
      AppendOne(After(run, n - 1), row, companyId, start, start + HOUR);
      if Delivers(After(run, m), d) && row.companyId == companyId && !row.critical && start <= row.at <= start + HOUR {
        DeliversExactly(After(run, m), d);
        OrdinaryAreCounted(After(run, m), companyId, start, start + HOUR, d.now - HOUR);
        FewAdded(run, m, n - 1, companyId, start, start + HOUR);
      }
    }
  }

  lemma NothingSent(companyId: nat, start: int, end: int)
    ensures OrdinaryIn([], companyId, start, end) == 0
  {
  }

  /** With a ceiling of one, two alerts dispatched together are both sent. */
  lemma OverlapGoesBeyondTheCeiling(d: Dispatch)
    requires d.config == Some(Config([Webhook("u", None, Filters(None, []))], None, None, Some(1)))
    requires d.alert.severity == High && d.works(WebhookTarget("u", Numbered(1)))
    ensures OrdinaryIn(After([Step(d, 0), Step(d, 1)], 2), d.alert.companyId, d.now, d.now) == 2
  {
    var run := [Step(d, 0), Step(d, 1)];
    var hook := Hook(d.config.value.webhooks[0], 0);
    assert hook == Channels(d.config.value)[0] && TargetFor(hook) == WebhookTarget("u", Numbered(1));
    DeliversExactly([], d);
    assert After(run, 0) == [];
    var row := Notified(d.alert.companyId, d.now, false);
    assert After(run, 1) == [row];
    assert After(run, 2) == [row, row];
    assert [row, row][..1] == [row] && [row][..0] == [];
    assert OrdinaryIn([row], d.alert.companyId, d.now, d.now) == 1;
  }
}
