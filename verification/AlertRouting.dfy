/**
 * Who receives an alert, in the terms of a company's configuration
 * (apps/api/src/notifications/routing.ts, apps/api/src/notifications/notifications.service.ts).
 */
module AlertRouting {
  import opened Wrappers
  import opened Notifications

  // ------------------------------------------------------------------------
  //  One channel
  // ------------------------------------------------------------------------

  /** Severe enough for the channel, which asks for HIGH at least when it says nothing. */
  predicate Severe(minimum: Option<Severity>, severity: Severity) {
    match minimum
    case None | Some(High) => severity == High || severity == Critical
    case Some(Low) => true
    case Some(Medium) => severity != Low
    case Some(Critical) => severity == Critical
  }

  /** The channel lists no type, or lists this one. */
  predicate Listed(types: seq<string>, kind: string) {
    |types| > 0 ==> exists i :: 0 <= i < |types| && types[i] == kind
  }

  predicate Takes(f: Filters, alert: Alert) {
    Severe(f.minSeverity, alert.severity) && Listed(f.types, alert.kind)
  }

  /** A channel that does not take an alert finds it below its threshold first, then of a type it did not select. */
  lemma RefusalExactly(f: Filters, alert: Alert)
    ensures Refusal(f, alert) ==
      if Takes(f, alert) then None
      else if Severe(f.minSeverity, alert.severity) then Some(TypeNotSelected)
      else Some(BelowThreshold)
  {
  }

  function WhyNot(f: Filters, alert: Alert): Reason {
    match Severe(f.minSeverity, alert.severity)
    case false => BelowThreshold
    case true => TypeNotSelected
  }

  // ------------------------------------------------------------------------
  //  All channels
  // ------------------------------------------------------------------------

  /** A webhook goes by its title, or by its number, counted from one. */
  function Title(w: Webhook, number: nat): Label {
    match w.title
    case Some(text) => Named(text)
    case None => Numbered(number)
  }

  /** The webhooks that take the alert, the first of them being number `number`. */
  function Hooked(ws: seq<Webhook>, number: nat, alert: Alert): seq<Target> {
    if |ws| == 0 then []
    else (if Takes(ws[0].filters, alert) then [WebhookTarget(ws[0].url, Title(ws[0], number))] else [])
         + Hooked(ws[1..], number + 1, alert)
  }

  function Unhooked(ws: seq<Webhook>, number: nat, alert: Alert): seq<(Label, Reason)> {
    if |ws| == 0 then []
    else (if Takes(ws[0].filters, alert) then [] else [(Title(ws[0], number), WhyNot(ws[0].filters, alert))])
         + Unhooked(ws[1..], number + 1, alert)
  }

  function Mailed(email: Option<Email>, alert: Alert): (seq<Target>, seq<(Label, Reason)>) {
    match email
    case None => ([], [])
    case Some(e) =>
      if Takes(e.filters, alert) then ([EmailTarget(e.recipients, Mail(|e.recipients|))], [])
      else ([], [(Mail(|e.recipients|), WhyNot(e.filters, alert))])
  }

  lemma WhyRefused(f: Filters, alert: Alert)
    ensures Refusal(f, alert) == if Takes(f, alert) then None else Some(WhyNot(f, alert))
  {
  }

  lemma NextHook(ws: seq<Webhook>, i: nat, alert: Alert)
    requires i < |ws|
    ensures Hooked(ws[i..], i + 1, alert) ==
      (if Takes(ws[i].filters, alert) then [WebhookTarget(ws[i].url, Title(ws[i], i + 1))] else [])
      + Hooked(ws[i + 1..], i + 2, alert)
    ensures Unhooked(ws[i..], i + 1, alert) ==
      (if Takes(ws[i].filters, alert) then [] else [(Title(ws[i], i + 1), WhyNot(ws[i].filters, alert))])
      + Unhooked(ws[i + 1..], i + 2, alert)
  {
    hide Takes, WhyNot;
    assert ws[i..][1..] == ws[i + 1..];
  }

  lemma HookIsAChannel(config: Config, i: nat, alert: Alert)
    requires i < |config.webhooks|
    ensures var (w, c) := (config.webhooks[i], Channels(config)[i]);
      && RefusalBy(c, alert) == (if Takes(w.filters, alert) then None else Some(WhyNot(w.filters, alert)))
      && TargetFor(c) == WebhookTarget(w.url, Title(w, i + 1)) && LabelFor(c) == Title(w, i + 1)
  {
    hide Takes, WhyNot, Refusal;
    WhyRefused(config.webhooks[i].filters, alert);
  }

  lemma {:induction false} HooksAmongChannels(config: Config, i: nat, alert: Alert)
    requires i <= |config.webhooks|
    ensures var ws, channels := config.webhooks, Channels(config);
      && TargetsAmong(channels[..i], alert) + Hooked(ws[i..], i + 1, alert) == Hooked(ws, 1, alert)
      && RefusedAmong(channels[..i], alert) + Unhooked(ws[i..], i + 1, alert) == Unhooked(ws, 1, alert)
  {
    hide TargetsAmong, RefusedAmong, Hooked, Unhooked, Takes, WhyNot, RefusalBy, TargetFor, LabelFor, Title, Channels;
    var ws, channels := config.webhooks, Channels(config);
    if i == 0 {
      NoChannelYet(alert);
      assert ws[0..] == ws && channels[..0] == [];
    } else {
      HooksAmongChannels(config, i - 1, alert);
      NextChannel(channels, i - 1, alert);
      NextHook(ws, i - 1, alert);
      HookIsAChannel(config, i - 1, alert);
    }
  }

  lemma ChannelsInOrder(config: Config, alert: Alert)
    ensures TargetsAmong(Channels(config), alert) == Hooked(config.webhooks, 1, alert) + Mailed(config.email, alert).0
    ensures RefusedAmong(Channels(config), alert) == Unhooked(config.webhooks, 1, alert) + Mailed(config.email, alert).1
  {
    hide TargetsAmong, RefusedAmong, Takes, Refusal;
    var n, channels := |config.webhooks|, Channels(config);
    HooksAmongChannels(config, n, alert);
    assert config.webhooks[n..] == [] && channels[..|channels|] == channels;
    if config.email.Some? {
      NextChannel(channels, n, alert);
      RefusalExactly(config.email.value.filters, alert);
    }
  }

  // ------------------------------------------------------------------------
  //  The decision
  // ------------------------------------------------------------------------

  /** Going round the clock from the beginning of the quiet hours, the minute is met before their end. */
  predicate InQuiet(quiet: Option<QuietHours>, local: Option<MinuteOfDay>) {
    match (quiet, local)
    case (Some(q), Some(m)) => (m - q.start + 1440) % 1440 < (q.end - q.start + 1440) % 1440
    case _ => false
  }

  /**
   * The routing of an alert: nowhere without a channel; for an alert that is not
   * critical, nowhere in quiet hours nor once the ceiling, twenty by default, is
   * reached; otherwise to each channel that takes it, webhooks in order then mail,
   * the others being reported with their reason.
   */
  lemma RoutedExactly(config: Option<Config>, alert: Alert, local: Option<MinuteOfDay>, sent: nat)
    ensures Route(config, alert, Quiet(config, local), sent) ==
      match config
      case None => Routing([], [(NoChannel, NotConfigured)])
      case Some(c) =>
        if |c.webhooks| == 0 && c.email.None? then Routing([], [(NoChannel, NotConfigured)])
        else if InQuiet(c.quiet, local) && alert.severity != Critical then Routing([], [(AllChannels, InQuietHours)])
        else if alert.severity != Critical && sent >= (if c.maxPerHour.Some? then c.maxPerHour.value else 20)
        then Routing([], [(AllChannels, RateLimited)])
        else Routing(Hooked(c.webhooks, 1, alert) + Mailed(c.email, alert).0,
                     Unhooked(c.webhooks, 1, alert) + Mailed(c.email, alert).1)
  {
    if config.Some? {
      hide TargetsAmong, RefusedAmong, Hooked, Unhooked, Mailed, Channels, IsQuietHour;
      ChannelsInOrder(config.value, alert);
      if config.value.quiet.Some? && local.Some? {
        QuietMinutesAreCyclic(config.value.quiet.value, local.value);
      }
    }
  }

  /** The rows of the company in the hour before an instant. */
  function RecentRows(sent: Table, companyId: nat, now: int): set<nat> {
    set i: nat | i < |sent| && sent[i].companyId == companyId && now - 3_600_000 <= sent[i].at
  }

  lemma {:induction false} CountsTheLastHour(sent: Table, companyId: nat, now: int)
    ensures CountSince(sent, companyId, now - HOUR) == |RecentRows(sent, companyId, now)|
  {
    if sent != [] {
      var last := |sent| - 1;
      CountsTheLastHour(sent[..last], companyId, now);
      var before, all := RecentRows(sent[..last], companyId, now), RecentRows(sent, companyId, now);
      assert all == if last in all then before + {last} else before;
    }
  }

  /**
   * An alert is sent exactly when some target of its routing works, the company's
   * alerts of the last hour, critical ones included, counting against the ceiling.
   */
  lemma SentExactly(seen: Table, d: Dispatch)
    ensures var sent := |RecentRows(seen, d.alert.companyId, d.now)|;
      Delivers(seen, d) <==>
        exists t :: t in Route(d.config, d.alert, Quiet(d.config, d.local), sent).targets && d.works(t)
  {
    CountsTheLastHour(seen, d.alert.companyId, d.now);
    hide CountSince, Route, Quiet;
  }
}
