/** The AI insights panel (components/AIInsights.tsx): the guard and
    fallbacks around the request for an insight, and the rule that turns
    each line of the returned text into a heading, a bullet, a blank or a
    plain line. The remote text service is not modelled; what it did is a
    parameter. */
module Insights {
  import opened Trades
  import opened Text

  /** Fewest trades for which an insight is requested. */
  const MinTrades: nat := 3

  const TooFewMessage: string := "Please log at least 3 trades for the AI to detect meaningful patterns."

  const FailureMessage: string := "Failed to reach the AlphaIntelligence engine. Please try again later."

  const FallbackText: string := "No specific insights generated."

  /** The panel's state: the insight shown, whether a request is running, and the error shown. */
  datatype Panel = Panel(insight: Option<string>, loading: bool, error: Option<string>)

  /** What the insight service did: returned a text (possibly missing or
      empty), or threw. */
  datatype Reply = Returned(text: Option<string>) | Threw

  /** The panel after `getInsights`, and whether the service was asked at all. */
  datatype Outcome = Outcome(panel: Panel, requested: bool)

  /** The panel while the request runs: loading, no error, and the old
      insight still shown. */
  function Pending(p: Panel): (r: Panel)
    ensures r.loading && r.error.None?
    ensures r.insight == p.insight
  {
    Panel(p.insight, true, None)
  }

  /** The panel once the request has settled: not loading, showing the
      returned text, the fallback for a missing or empty text, or the
      failure message (keeping the insight shown while pending) when the call
      throws. */
  function Settle(pending: Panel, reply: Reply): (r: Panel)
    ensures !r.loading
    ensures reply.Threw? ==> r.insight == pending.insight && r.error == Some(FailureMessage)
    ensures reply.Returned? ==> r.error.None? && r.insight.Some? && |r.insight.value| > 0
    ensures reply.Returned? && reply.text.Some? && |reply.text.value| > 0 ==> r.insight == reply.text
    ensures reply.Returned? && (reply.text.None? || |reply.text.value| == 0) ==>
      r.insight == Some(FallbackText)
  {
    match reply
    case Threw =>
      Panel(pending.insight, false, Some(FailureMessage))
    case Returned(text) =>
      var shown := if text.Some? && |text.value| > 0 then text.value else FallbackText;
      Panel(Some(shown), false, None)
  }

  /** `getInsights`: with fewer than three trades it only sets the error and
      asks nothing; otherwise it asks, clears the error and ends not loading,
      showing the returned text, the fallback for a missing or empty text,
      or the failure message (keeping the old insight) when the call throws. */
  function GetInsights(p: Panel, trades: seq<Trade>, reply: Reply): (r: Outcome)
    ensures r.requested <==> |trades| >= MinTrades
    ensures !r.requested ==> r.panel == p.(error := Some(TooFewMessage))
    ensures r.requested ==> !r.panel.loading
    ensures r.requested && reply.Threw? ==>
      r.panel.insight == p.insight && r.panel.error == Some(FailureMessage)
    ensures r.requested && reply.Returned? ==>
      r.panel.error.None? && r.panel.insight.Some? && |r.panel.insight.value| > 0
    ensures r.requested && reply.Returned? && reply.text.Some? && |reply.text.value| > 0 ==>
      r.panel.insight == reply.text
    ensures r.requested && reply.Returned? && (reply.text.None? || |reply.text.value| == 0) ==>
      r.panel.insight == Some(FallbackText)
  {
    if |trades| < MinTrades then
      Outcome(p.(error := Some(TooFewMessage)), false)
    else
      Outcome(Settle(Pending(p), reply), true)
  }

  /** Once a request settles, an error or loading flag from before it is
      forgotten: only the insight shown before can survive. */
  lemma SettledForgetsEarlierState(p: Panel, q: Panel, trades: seq<Trade>, reply: Reply)
    requires p.insight == q.insight
    requires |trades| >= MinTrades
    ensures GetInsights(p, trades, reply) == GetInsights(q, trades, reply)
  {
  }

  /** How one line of the insight is rendered. */
  datatype Line = Heading(text: string) | Bullet(text: string) | Blank | Plain(text: string)

  predicate StartsWith(s: string, c: char) { |s| > 0 && s[0] == c }

  /** A line starting with '#' is a heading without any '#'; failing that, a
      line starting with '-' or '*' is a bullet without its marker; failing
      that, an all-whitespace line is blank; anything else is shown as is. */
  function ClassifyLine(line: string): (r: Line)
    ensures r.Heading? <==> StartsWith(line, '#')
    ensures r.Bullet? <==> !StartsWith(line, '#') && (StartsWith(line, '-') || StartsWith(line, '*'))
    ensures r.Blank? <==>
      !r.Heading? && !r.Bullet? && forall i :: 0 <= i < |line| ==> IsSpace(line[i])
    ensures r.Heading? ==> '#' !in r.text && IsTrimmed(r.text)
    ensures r.Heading? ==> forall c :: c in r.text ==> c in line
    ensures r.Heading? ==> r.text == Trim(RemoveAll(line, '#'))
    ensures r.Bullet? ==> r.text == Trim(line[1..])
    ensures r.Bullet? ==> IsTrimmed(r.text) && forall c :: c in r.text ==> c in line[1..]
    ensures r.Plain? ==> r.text == line
  {
    TrimEmptyIffBlank(line);
    if StartsWith(line, '#') then Heading(Trim(RemoveAll(line, '#')))
    else if StartsWith(line, '-') || StartsWith(line, '*') then Bullet(Trim(line[1..]))
    else if Trim(line) == [] then Blank
    else Plain(line)
  }

  /** `insight.split('\n').map(...)`: one rendered element per line, in order. */
  function RenderInsight(insight: string): (r: seq<Line>)
    ensures |r| == Count(insight, '\n') + 1
    ensures forall i :: 0 <= i < |r| ==> r[i] == ClassifyLine(Split(insight, '\n')[i])
  {
    var lines := Split(insight, '\n');
    seq(|lines|, i requires 0 <= i < |lines| => ClassifyLine(lines[i]))
  }

  /** The rendered lines are the insight's lines: joining them back with
      line breaks gives the insight, and none of them holds a line break. */
  lemma RenderedLinesCoverInsight(insight: string)
    ensures Join(Split(insight, '\n'), '\n') == insight
    ensures forall i :: 0 <= i < |Split(insight, '\n')| ==> '\n' !in Split(insight, '\n')[i]
    ensures |RenderInsight(insight)| == |Split(insight, '\n')|
  {
    JoinSplit(insight, '\n');
  }
}
