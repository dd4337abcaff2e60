/** The prompt's transcript of a batch (src/curation_input.c): a batch is
    cut at the first turn that does not fit, because only what was shown may be acknowledged. */
module Transcript {
  import opened Outcomes
  import opened Turns

  function Line(t: Turn): string { (if t.user then "USER" else "ASSISTANT") + ": " + t.text + "\n" }

  function Text(ts: seq<Turn>): string {
    if ts == [] then "Conversation:\n" else Text(ts[..|ts| - 1]) + Line(ts[|ts| - 1])
  }

  /** Within the byte bound and, counted as a whole, within the token budget. */
  predicate Fits(ts: seq<Turn>, tokens: string -> int, budget: int) {
    |Text(ts)| <= TRANSCRIPT_BYTES && budget > 0 && tokens(Text(ts)) <= budget
  }

  /** Who spoke, the words, a newline. */
  ghost predicate LineAt(text: string, from: int, to: int, t: Turn) {
    0 <= from <= to <= |text| && text[from..to] == (if t.user then "USER: " else "ASSISTANT: ") + t.text + "\n"
  }

  /** The heading, then one line per turn and nothing else. */
  ghost predicate LaidOut(text: string, ts: seq<Turn>, at: seq<int>) {
    && |at| == |ts| + 1 && "Conversation:\n" <= text && at[0] == |"Conversation:\n"| && at[|ts|] == |text|
    && forall k | 0 <= k < |ts| :: LineAt(text, at[k], at[k + 1], ts[k])
  }

  lemma LineLast(text: string, t: Turn)
    ensures LineAt(text + Line(t), |text|, |text + Line(t)|, t)
  {
    assert Line(t) == (if t.user then "USER: " else "ASSISTANT: ") + t.text + "\n";
  }

  lemma LineStays(text: string, more: string, from: int, to: int, t: Turn)
    requires LineAt(text, from, to, t)
    ensures LineAt(text + more, from, to, t)
  {
    assert (text + more)[from..to] == text[from..to];
  }

  lemma LaidOutSnoc(text: string, ts: seq<Turn>, at: seq<int>, t: Turn)
    requires LaidOut(text, ts, at)
    ensures LaidOut(text + Line(t), ts + [t], at + [|text + Line(t)|])
  {
    hide Line, LineAt;
    LineLast(text, t);
    forall k | 0 <= k < |ts| ensures LineAt(text + Line(t), at[k], at[k + 1], ts[k]) {
      LineStays(text, Line(t), at[k], at[k + 1], ts[k]);
    }
  }

  lemma OnlyHeading()
    ensures LaidOut("Conversation:\n", [], [|"Conversation:\n"|])
  {}

  /** `asper_curation_transcript`. */
  method Build(ts: seq<Turn>, tokens: string -> int, budget: int)
      returns (err: Err, included: nat, text: string, ghost at: seq<int>)
    ensures included <= |ts| && text == Text(ts[..included])
    ensures LaidOut(text, ts[..included], at)
    ensures included > 0 ==> |text| <= 65536 && 0 < budget && tokens(text) <= budget
    ensures err == if ts == [] then Invalid else if included == 0 then Limit else Ok
    ensures forall k | 1 <= k <= included :: Fits(ts[..k], tokens, budget)
    ensures included < |ts| ==> !Fits(ts[..included + 1], tokens, budget)
  {
    text, included, at := "Conversation:\n", 0, [|"Conversation:\n"|];
    OnlyHeading();
    hide LaidOut;
    if ts == [] { return Invalid, 0, text, at; }
    while included < |ts|
      invariant included <= |ts| && text == Text(ts[..included]) && |text| <= TRANSCRIPT_BYTES
      invariant LaidOut(text, ts[..included], at)
      invariant forall k | 1 <= k <= included :: Fits(ts[..k], tokens, budget)
    {
      var role := if ts[included].user then "USER" else "ASSISTANT";
      var length, overhead := |ts[included].text|, |role| + 3;
      assert ts[..included + 1][..included] == ts[..included];
      if length > TRANSCRIPT_BYTES - overhead || |text| > TRANSCRIPT_BYTES - length - overhead { break; }
      var longer := text + Line(ts[included]);
      if budget <= 0 || tokens(longer) > budget { break; }
      LaidOutSnoc(text, ts[..included], at, ts[included]);
      assert ts[..included + 1] == ts[..included] + [ts[included]];
      text, at := longer, at + [|longer|];
      included := included + 1;
    }
    err := if included == 0 then Limit else Ok;
  }
}
