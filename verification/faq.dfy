/** The FAQ page's accordion (app/faq/page.tsx): one nullable index says which
    question is open; clicking a question opens it and closes any other, and
    clicking the open question closes it. */
module Faq {
  import opened Wrappers

  datatype Entry = Entry(question: string, answer: string)

  const Faqs: seq<Entry> := [
    Entry("HOW MUCH IS THE REGISTRATION FEE?",
          "The registration fee is \U{20B9}999 for a single pass which covers entry to all events."),
    Entry("I HAVE COMPLETED THE PAYMENT, BUT I AM UNABLE TO REGISTER FOR ANY EVENT. WHY?",
          "Please allow up to 24 hours for payment confirmation. If the issue persists, contact our support team with your transaction ID."),
    Entry("CAN THE EVENTS BE DISTRIBUTED MORE EVENLY ACROSS ALL THREE DAYS?",
          "The schedule is designed to maximize participation and minimize clashes. However, minor adjustments might be made closer to the event date."),
    Entry("WHAT ARE THE PRIZES FOR THE DIFFERENT COMPETITIONS?",
          "Prizes worth over \U{20B9}5 Lakhs are up for grabs! Detailed prize breakdown for each event is available in the Rulebook."),
    Entry("WILL FOOD AND ACCOMMODATION FACILITIES BE PROVIDED BY THE COLLEGE FOR OUTSTATION PARTICIPANTS?",
          "Yes, accommodation is available at a nominal cost. Food stalls will be set up on campus providing a variety of cuisines."),
    Entry("WITH A SINGLE REGISTRATION FEE OF \U{20B9}999, HOW MANY EVENTS CAN A PARTICIPANT TAKE PART IN AND WHAT BENEFITS ARE INCLUDED?",
          "The single fee covers participation in UNLIMITED events, subject to schedule clashes. It also includes entry to all Pro Nites and a welcome kit.")
  ]

  /** `openIndex` when the page mounts: nothing is open. */
  const Initial: Option<nat> := None

  /** Item `index` is rendered open (chevron up, answer visible). */
  predicate IsOpen(openIndex: Option<nat>, index: nat) {
    openIndex == Some(index)
  }

  /** The click handler of question `index`. Afterwards an item is open exactly
      when it is the clicked one and the clicked one was not open before. */
  function Toggle(openIndex: Option<nat>, index: nat): (r: Option<nat>)
    ensures forall j :: IsOpen(r, j) <==> j == index && !IsOpen(openIndex, index)
  {
    if openIndex == Some(index) then None else Some(index)
  }

  /** The state after the questions `clicks` are clicked in order. */
  function Clicks(openIndex: Option<nat>, clicks: seq<nat>): Option<nat>
    decreases |clicks|
  {
    if clicks == [] then openIndex else Clicks(Toggle(openIndex, clicks[0]), clicks[1..])
  }

  /** After any non-empty run of clicks, the only item that can be open is the
      one clicked last. */
  lemma {:induction false} OnlyLastClickedOpen(openIndex: Option<nat>, clicks: seq<nat>)
    requires clicks != []
    ensures forall j :: IsOpen(Clicks(openIndex, clicks), j) ==> j == clicks[|clicks| - 1]
    decreases |clicks|
  {
    if |clicks| > 1 {
      OnlyLastClickedOpen(Toggle(openIndex, clicks[0]), clicks[1..]);
    }
  }

  /** Clicking the same question `k` times from the all-closed page leaves it
      open exactly when `k` is odd; in particular two clicks close it again. */
  lemma {:induction false} RepeatedClicks(index: nat, k: nat)
    ensures Clicks(None, seq(k, _ => index)) == if k % 2 == 1 then Some(index) else None
    decreases k
  {
    if k >= 2 {
      var clicks := seq(k, _ => index);
      assert clicks[1..][1..] == seq(k - 2, _ => index);
      assert Clicks(None, clicks) == Clicks(None, seq(k - 2, _ => index));
      RepeatedClicks(index, k - 2);
    }
  }

  /** The answers rendered for the items `faqs`, which sit at positions
      `start`, `start + 1`, ... of the page: at most one, and it is the open
      item's. */
  function ShownFrom(faqs: seq<Entry>, openIndex: Option<nat>, start: nat): (r: seq<string>)
    ensures |r| <= 1
    ensures r != [] <==> openIndex.Some? && start <= openIndex.value < start + |faqs|
    ensures r != [] ==> r == [faqs[openIndex.value - start].answer]
    decreases |faqs|
  {
    if faqs == [] then []
    else
      (if IsOpen(openIndex, start) then [faqs[0].answer] else [])
      + ShownFrom(faqs[1..], openIndex, start + 1)
  }

  /** The answers the page renders: none when nothing is open, otherwise exactly
      the open question's answer. */
  function ShownAnswers(faqs: seq<Entry>, openIndex: Option<nat>): (r: seq<string>)
    ensures |r| <= 1
    ensures forall i :: 0 <= i < |faqs| && IsOpen(openIndex, i) ==> r == [faqs[i].answer]
    ensures (forall i :: 0 <= i < |faqs| ==> !IsOpen(openIndex, i)) ==> r == []
  {
    var r := ShownFrom(faqs, openIndex, 0);
    assert r != [] ==> IsOpen(openIndex, openIndex.value);
    r
  }

  /** On the real page: nothing is shown at first, the first click on a
      question shows its answer alone, and a second click hides it again. */
  lemma PageExample(index: nat)
    requires index < |Faqs|
    ensures ShownAnswers(Faqs, Initial) == []
    ensures ShownAnswers(Faqs, Toggle(Initial, index)) == [Faqs[index].answer]
    ensures ShownAnswers(Faqs, Toggle(Toggle(Initial, index), index)) == []
  {
    assert IsOpen(Toggle(Initial, index), index);
  }
}
