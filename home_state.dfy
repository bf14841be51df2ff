/** The Home page's state and its transitions, as values: the draft, the
    newest-first list of thoughts, the posting flag, the active tab, the
    session's liked ids and the post timers that have been scheduled. */
module HomeState {
  import opened Text

  /** One anonymous post. The timestamp is in milliseconds since the epoch. */
  datatype Thought = Thought(id: string, content: string, timestamp: int, likes: int)

  datatype Tab = Write | Feed

  /** A post waiting for its 600 ms timer: what the timer's callback captured
      when the post was started, the trimmed draft and the list as it was. */
  datatype Pending = Pending(content: string, snapshot: seq<Thought>)

  datatype State = State(
    draft: string,
    thoughts: seq<Thought>,
    isPosting: bool,
    activeTab: Tab,
    liked: set<string>,
    timers: seq<Pending>)

  /** The textarea's maxLength. */
  const MaxLength: nat := 280

  /** The "Need a spark?" prompts. */
  const Prompts: seq<string> :=
    ["what if...", "I never told anyone but...", "at 3am I think about...", "unpopular opinion:"]

  /** The three thoughts the feed starts with; their ages are fixed when the
      page is loaded, at loadTime. Each text is split in two literals only so
      that the verifier can see its characters. */
  function Seed(loadTime: int): (r: seq<Thought>)
    ensures |r| == 3 && UniqueIds(r) && LikesConsistent(r, {})
    ensures forall i :: 0 <= i < |r| ==> r[i].timestamp <= loadTime - 300000
  {
    [ Thought("1", "sometimes I wonder if clouds get " + "lonely floating up there by themselves",
              loadTime - 1000 * 60 * 5, 12),
      Thought("2", "why do we say 'sleep like a baby' " + "when babies wake up crying every two hours",
              loadTime - 1000 * 60 * 23, 47),
      Thought("3", "the moon is just " + "the sun's night shift worker",
              loadTime - 1000 * 60 * 45, 89) ]
  }

  lemma SeedContentsValid(loadTime: int)
    ensures forall i :: 0 <= i < |Seed(loadTime)| ==> ValidContent(Seed(loadTime)[i].content)
  {
    var ts := Seed(loadTime);
    UntrimmedIsValid(ts[0].content);
    UntrimmedIsValid(ts[1].content);
    UntrimmedIsValid(ts[2].content);
  }

  /** The page as first rendered: empty draft, the seed list, the flag down,
      the Write tab, nothing liked and no timer. */
  function Initial(loadTime: int): (r: State)
    ensures Invariant(r) && InvariantAsWritten(r)
  {
    SeedContentsValid(loadTime);
    State("", Seed(loadTime), false, Write, {}, [])
  }

  // ---------------------------------------------------------------------------
  // Invariant

  predicate UniqueIds(ts: seq<Thought>) {
    forall i, j :: 0 <= i < j < |ts| ==> ts[i].id != ts[j].id
  }

  /** No count is negative, and a thought this session has liked counts at
      least that like. */
  predicate LikesConsistent(ts: seq<Thought>, liked: set<string>) {
    forall i :: 0 <= i < |ts| ==> 0 <= ts[i].likes && (ts[i].id in liked ==> 1 <= ts[i].likes)
  }

  /** Stored text is trimmed, not empty and within the textarea's limit. */
  predicate ValidContent(c: string) {
    1 <= |c| <= MaxLength && Trim(c) == c
  }

  /** Everything the invariant says except the like counts: the draft fits
      the textarea, ids are unique, stored and pending texts are valid, and at
      most one timer is in flight, exactly while the flag is up. */
  predicate WellFormed(s: State) {
    && |s.draft| <= MaxLength
    && UniqueIds(s.thoughts)
    && (forall i :: 0 <= i < |s.thoughts| ==> ValidContent(s.thoughts[i].content))
    && |s.timers| <= 1
    && (s.isPosting <==> s.timers != [])
    && (forall k :: 0 <= k < |s.timers| ==> ValidContent(s.timers[k].content))
  }

  predicate Invariant(s: State) {
    WellFormed(s) && LikesConsistent(s.thoughts, s.liked)
  }

  /** The same thoughts in the same order, whatever their like counts. */
  predicate SameButLikes(a: seq<Thought>, b: seq<Thought>) {
    |a| == |b| && forall i :: 0 <= i < |a| ==> a[i].id == b[i].id && a[i].content == b[i].content
  }

  /** What the page as written keeps: the list a pending timer captured
      differs from the current list in like counts at most. */
  predicate InvariantAsWritten(s: State) {
    WellFormed(s) && forall k :: 0 <= k < |s.timers| ==> SameButLikes(s.timers[k].snapshot, s.thoughts)
  }

  /** An id no thought has and the session has not liked. */
  predicate Fresh(s: State, id: string) {
    id !in s.liked && forall i :: 0 <= i < |s.thoughts| ==> s.thoughts[i].id != id
  }

  // ---------------------------------------------------------------------------
  // Transitions

  function EditDraft(s: State, text: string): State {
    s.(draft := text)
  }

  function FillPrompt(s: State, k: nat): State
    requires k < |Prompts|
  {
    s.(draft := Prompts[k] + " ")
  }

  function SwitchTab(s: State, tab: Tab): State {
    s.(activeTab := tab)
  }

  /** The post button is enabled. */
  predicate CanPost(s: State) {
    Trim(s.draft) != [] && !s.isPosting
  }

  /** handlePost: a draft that trims to nothing is ignored; otherwise the flag
      is raised and a timer is scheduled with the trimmed draft and the list. */
  function HandlePost(s: State): (r: State)
    ensures r.thoughts == s.thoughts && r.draft == s.draft && r.liked == s.liked && r.activeTab == s.activeTab
    ensures AllSpace(s.draft) ==> r == s
    ensures !AllSpace(s.draft) ==> r.isPosting && |r.timers| == |s.timers| + 1 && r.timers[..|s.timers|] == s.timers
    ensures !AllSpace(s.draft) ==> r.timers[|s.timers|] == Pending(Trim(s.draft), s.thoughts)
  {
    if Trim(s.draft) == [] then s
    else s.(isPosting := true, timers := s.timers + [Pending(Trim(s.draft), s.thoughts)])
  }

  /** A press of the post button, which does nothing while it is disabled. */
  function PressPost(s: State): (r: State)
    ensures r.thoughts == s.thoughts && r.draft == s.draft && r.liked == s.liked && r.activeTab == s.activeTab
    ensures s.isPosting ==> r == s
    ensures |r.timers| == |s.timers| + 1 <==> CanPost(s)
    ensures !CanPost(s) ==> r == s
  {
    if CanPost(s) then HandlePost(s) else s
  }

  /** The oldest timer fires: its post goes to the head of the CURRENT list. */
  function FireTimer(s: State, id: string, now: int): (r: State)
    requires s.timers != []
    ensures |r.thoughts| == |s.thoughts| + 1 && r.thoughts[1..] == s.thoughts
    ensures r.thoughts[0] == Thought(id, s.timers[0].content, now, 0)
    ensures r.draft == "" && !r.isPosting && r.activeTab == Feed
    ensures r.timers == s.timers[1..] && r.liked == s.liked
  {
    s.(thoughts := [Thought(id, s.timers[0].content, now, 0)] + s.thoughts,
       draft := "", isPosting := false, activeTab := Feed, timers := s.timers[1..])
  }

  /** The timer's callback as the page has it: the post goes to the head of the
      list captured when the post was started, dropping any like made since.
      It agrees with FireTimer whenever the list did not change meanwhile. */
  function FireTimerAsWritten(s: State, id: string, now: int): (r: State)
    requires s.timers != []
    ensures s.timers[0].snapshot == s.thoughts ==> r == FireTimer(s, id, now)
    ensures r.liked == s.liked
  {
    s.(thoughts := [Thought(id, s.timers[0].content, now, 0)] + s.timers[0].snapshot,
       draft := "", isPosting := false, activeTab := Feed, timers := s.timers[1..])
  }

  /** The change a like toggle makes to a count. */
  function Delta(wasLiked: bool): int {
    if wasLiked then -1 else 1
  }

  /** id leaves the set if it was in it and joins it otherwise. */
  function Toggle(liked: set<string>, id: string): (r: set<string>)
    ensures id in r <==> id !in liked
    ensures forall x :: x != id ==> (x in r <==> x in liked)
  {
    if id in liked then liked - {id} else liked + {id}
  }

  /** Every thought with this id gains or loses one like; all else stays. */
  function AdjustLikes(ts: seq<Thought>, id: string, wasLiked: bool): (r: seq<Thought>)
    ensures |r| == |ts|
    ensures forall i :: 0 <= i < |ts| ==>
      r[i].id == ts[i].id && r[i].content == ts[i].content && r[i].timestamp == ts[i].timestamp
    ensures forall i :: 0 <= i < |ts| && ts[i].id != id ==> r[i] == ts[i]
    ensures forall i :: 0 <= i < |ts| && ts[i].id == id ==> r[i].likes == ts[i].likes + Delta(wasLiked)
  {
    if ts == [] then []
    else
      var t := ts[0];
      var t' := if t.id == id then t.(likes := t.likes + Delta(wasLiked)) else t;
      [t'] + AdjustLikes(ts[1..], id, wasLiked)
  }

  /** handleLike: the set is toggled and the list follows, whether or not any
      thought has that id. */
  function Like(s: State, id: string): (r: State)
    ensures id in r.liked <==> id !in s.liked
    ensures forall x :: x != id ==> (x in r.liked <==> x in s.liked)
    ensures |r.thoughts| == |s.thoughts|
    ensures forall i :: 0 <= i < |s.thoughts| && s.thoughts[i].id != id ==> r.thoughts[i] == s.thoughts[i]
    ensures forall i :: 0 <= i < |s.thoughts| && s.thoughts[i].id == id ==>
      r.thoughts[i] == s.thoughts[i].(likes := s.thoughts[i].likes + (if id in s.liked then -1 else 1))
    ensures r.draft == s.draft && r.isPosting == s.isPosting && r.activeTab == s.activeTab && r.timers == s.timers
  {
    var wasLiked := id in s.liked;
    s.(liked := Toggle(s.liked, id), thoughts := AdjustLikes(s.thoughts, id, wasLiked))
  }

  /** The user's actions and the timer, as events on the page. */
  datatype Action =
    | Type(text: string)
    | PickPrompt(k: nat)
    | ClickTab(tab: Tab)
    | ClickPost
    | TimerFires(id: string, now: int)
    | ClickLike(likeId: string)

  /** An event that can happen in s: the browser delivers at most MaxLength
      characters, there are four prompts, and only a scheduled timer fires. */
  predicate Enabled(s: State, a: Action) {
    match a
    case Type(text) => |text| <= MaxLength
    case PickPrompt(k) => k < |Prompts|
    case TimerFires(_, _) => s.timers != []
    case _ => true
  }

  function Step(s: State, a: Action): State
    requires Enabled(s, a)
  {
    match a
    case Type(text) => EditDraft(s, text)
    case PickPrompt(k) => FillPrompt(s, k)
    case ClickTab(tab) => SwitchTab(s, tab)
    case ClickPost => PressPost(s)
    case TimerFires(id, now) => FireTimer(s, id, now)
    case ClickLike(id) => Like(s, id)
  }

  /** An event that can happen, with a fresh id for a new post. */
  predicate Admissible(s: State, a: Action) {
    Enabled(s, a) && (a.TimerFires? ==> Fresh(s, a.id))
  }

  predicate AdmissibleRun(s: State, acts: seq<Action>)
    decreases |acts|
  {
    acts == [] || (Admissible(s, acts[0]) && AdmissibleRun(Step(s, acts[0]), acts[1..]))
  }

  function Run(s: State, acts: seq<Action>): State
    requires AdmissibleRun(s, acts)
    decreases |acts|
  {
    if acts == [] then s else Run(Step(s, acts[0]), acts[1..])
  }

  /** One event of the page as written: the timer's callback is the one the
      page has; every other event is as in Step. */
  function StepAsWritten(s: State, a: Action): State
    requires Enabled(s, a)
  {
    match a
    case TimerFires(id, now) => FireTimerAsWritten(s, id, now)
    case _ => Step(s, a)
  }

  predicate AdmissibleRunAsWritten(s: State, acts: seq<Action>)
    decreases |acts|
  {
    acts == [] || (Admissible(s, acts[0]) && AdmissibleRunAsWritten(StepAsWritten(s, acts[0]), acts[1..]))
  }

  function RunAsWritten(s: State, acts: seq<Action>): State
    requires AdmissibleRunAsWritten(s, acts)
    decreases |acts|
  {
    if acts == [] then s else RunAsWritten(StepAsWritten(s, acts[0]), acts[1..])
  }

  // ---------------------------------------------------------------------------
  // Properties

  /** Text of an allowed length that neither starts nor ends with whitespace. */
  lemma UntrimmedIsValid(c: string)
    requires 1 <= |c| <= MaxLength && !IsSpace(c[0]) && !IsSpace(c[|c| - 1])
    ensures ValidContent(c)
  {
    TrimUnique(c, [], c, []);
    assert c == [] + c + [];
  }

  /** Liking twice in a row restores the liked set and every count. */
  lemma LikeTwiceRestores(s: State, id: string)
    ensures Like(Like(s, id), id) == s
  {
    var wasLiked := id in s.liked;
    var s1 := Like(s, id);
    assert (id in s1.liked) == !wasLiked;
    var ts2 := AdjustLikes(s1.thoughts, id, !wasLiked);
    forall i | 0 <= i < |s.thoughts| ensures ts2[i] == s.thoughts[i] {
      assert ts2[i].likes == s.thoughts[i].likes;
    }
    assert ts2 == s.thoughts;
    assert Toggle(s1.liked, id) == s.liked;
  }

  /** A like of an id no thought has leaves the list as it is. */
  lemma LikeUnknownId(s: State, id: string)
    requires forall i :: 0 <= i < |s.thoughts| ==> s.thoughts[i].id != id
    ensures Like(s, id).thoughts == s.thoughts
    ensures Like(s, id).liked == Toggle(s.liked, id)
  {
    assert AdjustLikes(s.thoughts, id, id in s.liked) == s.thoughts;
  }

  /** A draft of whitespace only posts nothing and changes nothing. */
  lemma BlankDraftIsNoOp(s: State)
    requires AllSpace(s.draft)
    ensures !CanPost(s) && HandlePost(s) == s && PressPost(s) == s
  {
  }

  /** A press of an enabled post button followed by its timer: the trimmed
      draft, with no likes, heads the list before all earlier thoughts in their
      order; the draft is cleared, the flag lowered and the feed shown. */
  lemma PostThenFire(s: State, id: string, now: int)
    requires CanPost(s) && s.timers == []
    ensures var s' := FireTimer(PressPost(s), id, now);
      && s'.thoughts == [Thought(id, Trim(s.draft), now, 0)] + s.thoughts
      && s'.draft == "" && !s'.isPosting && s'.activeTab == Feed
      && s'.liked == s.liked && s'.timers == []
  {
  }

  /** The content of a post from a draft the textarea accepted is within
      bounds and stays trimmed. */
  lemma PostedContentValid(draft: string)
    requires |draft| <= MaxLength && Trim(draft) != []
    ensures ValidContent(Trim(draft))
  {
    TrimIdempotent(draft);
  }

  lemma PressPostPreservesInvariant(s: State)
    requires Invariant(s)
    ensures Invariant(PressPost(s))
  {
    if CanPost(s) {
      PostedContentValid(s.draft);
    }
  }

  /** A post pressed and its timer with the callback as written: the snapshot
      is still the current list, so the result is the corrected one. */
  lemma PostThenFireAsWritten(s: State, id: string, now: int)
    requires CanPost(s) && s.timers == []
    ensures FireTimerAsWritten(PressPost(s), id, now) == FireTimer(PressPost(s), id, now)
  {
  }

  /** A new post with a fresh id keeps the ids unique, the counts consistent
      and the contents valid. */
  lemma FireTimerPreservesInvariant(s: State, id: string, now: int)
    requires Invariant(s) && s.timers != [] && Fresh(s, id)
    ensures Invariant(FireTimer(s, id, now))
  {
    var ts := FireTimer(s, id, now).thoughts;
    assert ValidContent(s.timers[0].content);
    assert forall i :: 0 < i < |ts| ==> ts[i] == s.thoughts[i - 1];
    forall i | 0 <= i < |ts| ensures ValidContent(ts[i].content) {
    }
    forall i, j | 0 <= i < j < |ts| ensures ts[i].id != ts[j].id {
    }
  }

  lemma LikePreservesInvariant(s: State, id: string)
    requires Invariant(s)
    ensures Invariant(Like(s, id))
  {
    var ts := Like(s, id).thoughts;
    forall i, j | 0 <= i < j < |ts| ensures ts[i].id != ts[j].id {
      assert ts[i].id == s.thoughts[i].id && ts[j].id == s.thoughts[j].id;
    }
  }

  /** Every event keeps the invariant, given a fresh id for a new post. */
  lemma StepPreservesInvariant(s: State, a: Action)
    requires Invariant(s) && Admissible(s, a)
    ensures Invariant(Step(s, a))
  {
    match a
    case Type(_) =>
    case PickPrompt(k) =>
    case ClickTab(_) =>
    case ClickPost => PressPostPreservesInvariant(s);
    case TimerFires(id, now) => FireTimerPreservesInvariant(s, id, now);
    case ClickLike(id) => LikePreservesInvariant(s, id);
  }

  lemma {:induction false} RunPreservesInvariant(s: State, acts: seq<Action>)
    requires Invariant(s) && AdmissibleRun(s, acts)
    ensures Invariant(Run(s, acts))
    decreases |acts|
  {
    if acts != [] {
      StepPreservesInvariant(s, acts[0]);
      RunPreservesInvariant(Step(s, acts[0]), acts[1..]);
    }
  }

  /** Every state the page can reach from loading keeps the invariant. */
  lemma ReachableInvariant(loadTime: int, acts: seq<Action>)
    requires AdmissibleRun(Initial(loadTime), acts)
    ensures Invariant(Run(Initial(loadTime), acts))
  {
    RunPreservesInvariant(Initial(loadTime), acts);
  }

  lemma PressPostKeepsInvariantAsWritten(s: State)
    requires InvariantAsWritten(s)
    ensures InvariantAsWritten(PressPost(s))
  {
    if CanPost(s) {
      PostedContentValid(s.draft);
    }
  }

  lemma LikeKeepsInvariantAsWritten(s: State, id: string)
    requires InvariantAsWritten(s)
    ensures InvariantAsWritten(Like(s, id))
  {
    var ts := Like(s, id).thoughts;
    forall i, j | 0 <= i < j < |ts| ensures ts[i].id != ts[j].id {
      assert ts[i].id == s.thoughts[i].id && ts[j].id == s.thoughts[j].id;
    }
  }

  /** A post with a new id heading a list with the current ids and texts
      keeps the ids unique and the texts valid. */
  lemma PrependToSameButLikes(t: Thought, snap: seq<Thought>, cur: seq<Thought>)
    requires SameButLikes(snap, cur) && UniqueIds(cur) && ValidContent(t.content)
    requires forall i :: 0 <= i < |cur| ==> ValidContent(cur[i].content) && cur[i].id != t.id
    ensures UniqueIds([t] + snap)
    ensures forall i :: 0 <= i < |[t] + snap| ==> ValidContent(([t] + snap)[i].content)
  {
    var ts := [t] + snap;
    forall i | 0 <= i < |ts| ensures ValidContent(ts[i].content) {
      if i > 0 {
        assert ts[i] == snap[i - 1];
      }
    }
    forall i, j | 0 <= i < j < |ts| ensures ts[i].id != ts[j].id {
      assert ts[j] == snap[j - 1];
      if i > 0 {
        assert ts[i] == snap[i - 1];
      }
    }
  }

  /** The callback as written, with an id no current thought has, keeps ids
      unique and texts valid: the captured list has the current ids. */
  lemma FireTimerAsWrittenKeepsInvariantAsWritten(s: State, id: string, now: int)
    requires InvariantAsWritten(s) && s.timers != [] && Fresh(s, id)
    ensures InvariantAsWritten(FireTimerAsWritten(s, id, now))
  {
    assert SameButLikes(s.timers[0].snapshot, s.thoughts);
    assert ValidContent(s.timers[0].content);
    PrependToSameButLikes(Thought(id, s.timers[0].content, now, 0), s.timers[0].snapshot, s.thoughts);
    assert FireTimerAsWritten(s, id, now).timers == [];
  }

  /** Every event of the page as written keeps InvariantAsWritten. */
  lemma StepAsWrittenKeepsInvariantAsWritten(s: State, a: Action)
    requires InvariantAsWritten(s) && Admissible(s, a)
    ensures InvariantAsWritten(StepAsWritten(s, a))
  {
    match a
    case Type(_) =>
    case PickPrompt(k) =>
    case ClickTab(_) =>
    case ClickPost => PressPostKeepsInvariantAsWritten(s);
    case TimerFires(id, now) => FireTimerAsWrittenKeepsInvariantAsWritten(s, id, now);
    case ClickLike(id) => LikeKeepsInvariantAsWritten(s, id);
  }

  lemma {:induction false} RunAsWrittenKeepsInvariantAsWritten(s: State, acts: seq<Action>)
    requires InvariantAsWritten(s) && AdmissibleRunAsWritten(s, acts)
    ensures InvariantAsWritten(RunAsWritten(s, acts))
    decreases |acts|
  {
    if acts != [] {
      StepAsWrittenKeepsInvariantAsWritten(s, acts[0]);
      RunAsWrittenKeepsInvariantAsWritten(StepAsWritten(s, acts[0]), acts[1..]);
    }
  }

  /** Every state the page as written can reach keeps unique ids, valid texts
      and a single timer tied to the flag; only the like counts can go wrong. */
  lemma ReachableInvariantAsWritten(loadTime: int, acts: seq<Action>)
    requires AdmissibleRunAsWritten(Initial(loadTime), acts)
    ensures WellFormed(RunAsWritten(Initial(loadTime), acts))
  {
    RunAsWrittenKeepsInvariantAsWritten(Initial(loadTime), acts);
  }

  /** With the timer's callback as written, a like made on the Feed tab while
      a post is in flight is lost from the count but stays in the liked set, and liking
      again takes the count below zero. */
  lemma StaleSnapshotBreaksLikes()
    ensures var s0 := State("hi", [Thought("1", "x", 0, 0)], false, Write, {}, []);
      var s1 := Like(SwitchTab(PressPost(s0), Feed), "1");
      var s2 := FireTimerAsWritten(s1, "2", 600);
      && Invariant(s0) && Fresh(s1, "2")
      && s1.thoughts[0].likes == 1
      && "1" in s2.liked && s2.thoughts[1].likes == 0
      && !LikesConsistent(s2.thoughts, s2.liked)
      && Like(s2, "1").thoughts[1].likes == -1
  {
    var t := Thought("1", "x", 0, 0);
    var s0 := State("hi", [t], false, Write, {}, []);
    UntrimmedIsValid("x");
    UntrimmedIsValid("hi");
    assert Invariant(s0);
    var s1 := Like(SwitchTab(PressPost(s0), Feed), "1");
    assert PressPost(s0).timers == [Pending("hi", [t])];
    assert s1.thoughts == [t.(likes := 1)] && s1.liked == {"1"};
    var s2 := FireTimerAsWritten(s1, "2", 600);
    assert s2.thoughts == [Thought("2", "hi", 600, 0), t];
    assert Like(s2, "1").thoughts[1].likes == -1;
  }

  /** With the corrected callback, the same like survives the post. */
  lemma FireTimerKeepsLikes(s: State, id: string, now: int)
    requires s.timers != []
    ensures FireTimer(s, id, now).thoughts[1..] == s.thoughts
    ensures FireTimer(s, id, now).liked == s.liked
  {
  }
}
