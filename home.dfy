/** The Home page component: its five pieces of state, updated in place by its
    handlers, and the post timer it schedules. */
module HomePage {
  import opened Text
  import opened HomeState

  class Home {
    var draft: string
    var thoughts: seq<Thought>
    var isPosting: bool
    var activeTab: Tab
    var liked: set<string>
    /** Posts whose 600 ms timer has been scheduled and has not yet fired. */
    var timers: seq<Pending>

    /** The page's state as a value. */
    function Snapshot(): State
      reads this
    {
      State(draft, thoughts, isPosting, activeTab, liked, timers)
    }

    /** The invariant the page keeps with the corrected timer callback. */
    predicate Valid()
      reads this
    {
      Invariant(Snapshot())
    }

    /** The part of it the page keeps as written: all but the like counts. */
    predicate ValidAsWritten()
      reads this
    {
      InvariantAsWritten(Snapshot())
    }

    /** The page as it is first rendered. */
    constructor (loadTime: int)
      ensures Snapshot() == Initial(loadTime)
      ensures Valid() && ValidAsWritten()
    {
      draft := "";
      thoughts := Seed(loadTime);
      isPosting := false;
      activeTab := Write;
      liked := {};
      timers := [];
    }

    /** The textarea's change handler; the browser's maxLength bounds the text. */
    method EditDraft(text: string)
      requires |text| <= MaxLength
      modifies this
      ensures draft == text
      ensures thoughts == old(thoughts) && isPosting == old(isPosting) && activeTab == old(activeTab)
      ensures liked == old(liked) && timers == old(timers)
      ensures Snapshot() == Step(old(Snapshot()), Type(text))
      ensures old(Valid()) ==> Valid()
      ensures old(ValidAsWritten()) ==> ValidAsWritten()
    {
      draft := text;
    }

    /** A "Need a spark?" button: the draft becomes the prompt and a space. */
    method FillPrompt(k: nat)
      requires k < |Prompts|
      modifies this
      ensures draft == Prompts[k] + " "
      ensures thoughts == old(thoughts) && isPosting == old(isPosting) && activeTab == old(activeTab)
      ensures liked == old(liked) && timers == old(timers)
      ensures Snapshot() == Step(old(Snapshot()), PickPrompt(k))
      ensures old(Valid()) ==> Valid()
      ensures old(ValidAsWritten()) ==> ValidAsWritten()
    {
      draft := Prompts[k] + " ";
    }

    /** The Write and Feed tab buttons. */
    method SwitchTab(tab: Tab)
      modifies this
      ensures activeTab == tab
      ensures draft == old(draft) && thoughts == old(thoughts) && isPosting == old(isPosting)
      ensures liked == old(liked) && timers == old(timers)
      ensures Snapshot() == Step(old(Snapshot()), ClickTab(tab))
      ensures old(Valid()) ==> Valid()
      ensures old(ValidAsWritten()) ==> ValidAsWritten()
    {
      activeTab := tab;
    }

    /** A press of the post button. It is disabled while the draft trims to
        nothing or a post is in flight; otherwise handlePost raises the flag
        and schedules the timer with the trimmed draft and the current list. */
    method Post() returns (accepted: bool)
      modifies this
      ensures accepted <==> Trim(old(draft)) != [] && !old(isPosting)
      ensures accepted ==> isPosting && timers == old(timers) + [Pending(Trim(old(draft)), old(thoughts))]
      ensures !accepted ==> isPosting == old(isPosting) && timers == old(timers)
      ensures draft == old(draft) && thoughts == old(thoughts) && activeTab == old(activeTab)
      ensures liked == old(liked)
      ensures Snapshot() == Step(old(Snapshot()), ClickPost)
      ensures old(Valid()) ==> Valid()
      ensures old(ValidAsWritten()) ==> ValidAsWritten()
    {
      ghost var before := Snapshot();
      accepted := Trim(draft) != [] && !isPosting;
      if accepted {
        var content := Trim(draft);
        isPosting := true;
        timers := timers + [Pending(content, thoughts)];
      }
      if Invariant(before) {
        PressPostPreservesInvariant(before);
      }
      if InvariantAsWritten(before) {
        PressPostKeepsInvariantAsWritten(before);
      }
    }

    /** The oldest scheduled timer fires and its post is published with the
        given fresh id and time: it heads the list, the draft is cleared, the
        flag lowered and the feed shown. */
    method FireTimer(id: string, now: int)
      requires timers != []
      modifies this
      ensures thoughts == [Thought(id, old(timers[0].content), now, 0)] + old(thoughts)
      ensures draft == "" && !isPosting && activeTab == Feed
      ensures timers == old(timers[1..]) && liked == old(liked)
      ensures Snapshot() == Step(old(Snapshot()), TimerFires(id, now))
      ensures old(Valid()) && Fresh(old(Snapshot()), id) ==> Valid()
    {
      ghost var before := Snapshot();
      var pending := timers[0];
      timers := timers[1..];
      var newThought := Thought(id, pending.content, now, 0);
      thoughts := [newThought] + thoughts;
      draft := "";
      isPosting := false;
      activeTab := Feed;
      if Invariant(before) && Fresh(before, id) {
        FireTimerPreservesInvariant(before, id, now);
      }
    }

    /** The timer's callback exactly as the page has it: the post heads the
        list captured when the post was started, not the current list, so a
        like made in between is lost from its count. It need not keep Valid(),
        but it keeps ValidAsWritten() for an id no thought has. */
    method FireTimerAsWritten(id: string, now: int)
      requires timers != []
      modifies this
      ensures thoughts == [Thought(id, old(timers[0].content), now, 0)] + old(timers[0].snapshot)
      ensures draft == "" && !isPosting && activeTab == Feed
      ensures timers == old(timers[1..]) && liked == old(liked)
      ensures Snapshot() == HomeState.FireTimerAsWritten(old(Snapshot()), id, now)
      ensures old(ValidAsWritten()) && Fresh(old(Snapshot()), id) ==> ValidAsWritten()
    {
      ghost var before := Snapshot();
      var pending := timers[0];
      timers := timers[1..];
      var newThought := Thought(id, pending.content, now, 0);
      thoughts := [newThought] + pending.snapshot;
      draft := "";
      isPosting := false;
      activeTab := Feed;
      if InvariantAsWritten(before) && Fresh(before, id) {
        FireTimerAsWrittenKeepsInvariantAsWritten(before, id, now);
      }
    }

    /** handleLike: toggle id in the liked set and move every count with that
        id by one in the same direction. */
    method HandleLike(id: string)
      modifies this
      ensures (id in liked) == (id !in old(liked))
      ensures forall x :: x != id ==> (x in liked <==> x in old(liked))
      ensures thoughts == AdjustLikes(old(thoughts), id, id in old(liked))
      ensures draft == old(draft) && isPosting == old(isPosting) && activeTab == old(activeTab)
      ensures timers == old(timers)
      ensures Snapshot() == Step(old(Snapshot()), ClickLike(id))
      ensures old(Valid()) ==> Valid()
      ensures old(ValidAsWritten()) ==> ValidAsWritten()
    {
      ghost var before := Snapshot();
      var isLiked := id in liked;
      var newSet := liked;
      if isLiked {
        newSet := newSet - {id};
      } else {
        newSet := newSet + {id};
      }
      liked := newSet;
      thoughts := AdjustLikes(thoughts, id, isLiked);
      if Invariant(before) {
        LikePreservesInvariant(before, id);
      }
      if InvariantAsWritten(before) {
        LikeKeepsInvariantAsWritten(before, id);
      }
    }
  }
}
