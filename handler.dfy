/**
  The handler of the "スクレイピング" button: collect the seed's same-domain
  links; with none, show a fixed message; otherwise sample 5 of them with
  `random.sample` and, for each in sampled order, fetch and describe the page,
  append `[link, info]` to the response and show the whole response again.
  Any exception inside the `try` — `random.sample` refusing a list shorter
  than 5, or a failed fetch or model call — replaces the output with a fixed
  retry message.
 */
module Handler {
  import opened Normalize
  import opened Links

  const NoInfoMessage: string := "情報が取得できませんでした"
  const RetryMessage: string := "時間をおいてもう一度試してください"

  /** The number of links `random.sample` is asked for. */
  const SampleSize: nat := 5

  /**
    How fetching and describing one sampled link (`get_html`, then
    `get_information`) ended: with the model's text, or with an exception.
   */
  datatype Reply = Described(info: string) | Raised

  /** One write to the output area; each write replaces what it showed before. */
  datatype Display = Message(text: string) | Entries(entries: seq<(Url, string)>)

  /** A choice `random.sample(links, 5)` can make: 5 distinct positions among `n` links. */
  predicate IsSample(picks: seq<nat>, n: nat) {
    && |picks| == SampleSize
    && (forall k :: 0 <= k < |picks| ==> picks[k] < n)
    && (forall k, l :: 0 <= k < l < |picks| ==> picks[k] != picks[l])
  }

  /** The sampled links, in sampled order. */
  function Sampled(links: seq<Url>, picks: seq<nat>): seq<Url>
    requires IsSample(picks, |links|)
  {
    seq(SampleSize, k requires 0 <= k < SampleSize => links[picks[k]])
  }

  /** How many replies succeed before the first exception: the index of the first `Raised`, if any. */
  function LeadingSuccesses(replies: seq<Reply>): (c: nat)
    ensures c <= |replies|
    ensures forall k :: 0 <= k < c ==> replies[k].Described?
    ensures c < |replies| ==> replies[c].Raised?
  {
    if replies == [] || replies[0].Raised? then 0 else 1 + LeadingSuccesses(replies[1..])
  }

  /** The `response` list after the first `n` iterations. */
  function Summaries(sampled: seq<Url>, replies: seq<Reply>, n: nat): seq<(Url, string)>
    requires n <= |sampled| && n <= |replies|
    requires forall k :: 0 <= k < n ==> replies[k].Described?
  {
    seq(n, k requires 0 <= k < n => (sampled[k], replies[k].info))
  }

  /** The writes of the first `n` iterations: after iteration `k`, the first `k + 1` summaries. */
  function Progress(sampled: seq<Url>, replies: seq<Reply>, n: nat): seq<Display>
    requires n <= |sampled| && n <= |replies|
    requires forall k :: 0 <= k < n ==> replies[k].Described?
  {
    seq(n, k requires 0 <= k < n => Entries(Summaries(sampled, replies, k + 1)))
  }

  /**
    Every write one click makes to the output area, in order, given the links
    `get_links` returned, the positions `random.sample` picks (used only when
    there are at least 5 links) and how each of the 5 summaries ends.
   */
  function ClickWrites(links: seq<Url>, picks: seq<nat>, replies: seq<Reply>): seq<Display>
    requires |links| >= SampleSize ==> IsSample(picks, |links|)
    requires |replies| == SampleSize
  {
    if |links| == 0 then [Message(NoInfoMessage)]
    else if |links| < SampleSize then [Message(RetryMessage)]
    else
      var c := LeadingSuccesses(replies);
      Progress(Sampled(links, picks), replies, c) + (if c < SampleSize then [Message(RetryMessage)] else [])
  }

  method ScrapeClicked(seed: Url, fetched: FetchOutcome, picks: seq<nat>, replies: seq<Reply>)
    returns (writes: seq<Display>)
    requires |LinksOf(seed.netloc, fetched)| >= SampleSize ==> IsSample(picks, |LinksOf(seed.netloc, fetched)|)
    requires |replies| == SampleSize
    ensures writes == ClickWrites(LinksOf(seed.netloc, fetched), picks, replies)
  {
    var links := GetLinks(seed, fetched);
    if |links| == 0 {
      writes := [Message(NoInfoMessage)];
    } else if |links| < SampleSize {
      // random.sample(links, 5) raises ValueError before anything is written
      writes := [Message(RetryMessage)];
    } else {
      var response: seq<(Url, string)> := [];
      var sampled := Sampled(links, picks);
      writes := [];
      for i := 0 to SampleSize
        invariant i <= LeadingSuccesses(replies)
        invariant response == Summaries(sampled, replies, i)
        invariant writes == Progress(sampled, replies, i)
      {
        match replies[i]
        case Raised =>
          writes := writes + [Message(RetryMessage)];
          break;
        case Described(information) =>
          response := response + [(sampled[i], information)];
          writes := writes + [Entries(response)];
      }
    }
  }

  /** What the output area shows once the handler is done: its last write. */
  function Shown(writes: seq<Display>): Display
    requires writes != []
  {
    writes[|writes| - 1]
  }

  /**
    The outcome of a click. No links: the no-information message. One to
    four links: the retry message, since `random.sample` refuses to draw 5.
    Otherwise summaries stay on screen exactly when all 5 succeed, and any
    failure replaces the partial output with the retry message.
   */
  lemma ClickOutcome(links: seq<Url>, picks: seq<nat>, replies: seq<Reply>)
    requires |links| >= SampleSize ==> IsSample(picks, |links|)
    requires |replies| == SampleSize
    ensures 1 <= |ClickWrites(links, picks, replies)| <= SampleSize + 1
    ensures |links| == 0 ==> ClickWrites(links, picks, replies) == [Message(NoInfoMessage)]
    ensures 0 < |links| < SampleSize ==> ClickWrites(links, picks, replies) == [Message(RetryMessage)]
    ensures Shown(ClickWrites(links, picks, replies)).Entries? <==>
      |links| >= SampleSize && forall k :: 0 <= k < SampleSize ==> replies[k].Described?
    ensures |links| > 0 && !Shown(ClickWrites(links, picks, replies)).Entries? ==>
      Shown(ClickWrites(links, picks, replies)) == Message(RetryMessage)
  {
    if |links| >= SampleSize {
      var c := LeadingSuccesses(replies);
      if c == SampleSize {
        assert Shown(ClickWrites(links, picks, replies)) == Entries(Summaries(Sampled(links, picks), replies, SampleSize));
      } else {
        assert replies[c].Raised?;
      }
    }
  }

  /**
    When every summary succeeds, the screen ends with exactly 5 entries: the
    sampled links in sampled order, each with the model's description of it.
   */
  lemma ClickSummaries(links: seq<Url>, picks: seq<nat>, replies: seq<Reply>)
    requires IsSample(picks, |links|) && |links| >= SampleSize
    requires |replies| == SampleSize
    requires forall k :: 0 <= k < SampleSize ==> replies[k].Described?
    ensures Shown(ClickWrites(links, picks, replies)).Entries?
    ensures |Shown(ClickWrites(links, picks, replies)).entries| == SampleSize
    ensures forall k :: 0 <= k < SampleSize ==>
      Shown(ClickWrites(links, picks, replies)).entries[k] == (links[picks[k]], replies[k].info)
  {
    ClickOutcome(links, picks, replies);
  }

  /**
    The response grows by one `[link, info]` entry per successful iteration:
    the `j`-th write that shows entries shows the first `j + 1` of them, each
    a sampled link paired with its description.
   */
  lemma ClickProgress(links: seq<Url>, picks: seq<nat>, replies: seq<Reply>, j: nat)
    requires |links| >= SampleSize ==> IsSample(picks, |links|)
    requires |replies| == SampleSize
    requires j < |ClickWrites(links, picks, replies)| && ClickWrites(links, picks, replies)[j].Entries?
    ensures |links| >= SampleSize && j < SampleSize
    ensures |ClickWrites(links, picks, replies)[j].entries| == j + 1
    ensures forall k :: 0 <= k <= j ==>
      replies[k].Described? && ClickWrites(links, picks, replies)[j].entries[k] == (links[picks[k]], replies[k].info)
  {
    var c := LeadingSuccesses(replies);
    assert j < c;
  }
}
