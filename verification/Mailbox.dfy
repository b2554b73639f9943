// The display mailbox: producers post frames per line, one display thread finds
// a pending slot and takes it in two separate locked sections. The steps are the
// ones the methods of DisplayList.Klist perform on its slots.
module Mailbox {
  import opened ListHead
  import opened DisplayList

  // Between its two sections the display thread holds the index it found.
  datatype Consumer = Searching | Holding(k: nat)

  datatype Taken = Taken(line: int, payload: seq<bv8>)

  // `posts` and `takes` are the histories of the two sides.
  datatype State = State(slots: seq<NodeData>, consumer: Consumer, posts: seq<NodeData>, takes: seq<Taken>)

  datatype Step = Post(data: NodeData) | Search | LinkDown | Take

  // Producers post to registered lines only. LinkDown is the check after the
  // search that sends the thread back without taking.
  predicate Enabled(s: State, step: Step) {
    match step
    case Post(data) => LineIndex(s.slots, data.line) < |s.slots|
    case Search => s.consumer.Searching?
    case LinkDown => s.consumer.Holding?
    case Take => s.consumer.Holding? && s.consumer.k < |s.slots|
  }

  function Do(s: State, step: Step): State
    requires Enabled(s, step)
  {
    match step
    case Post(data) => s.(slots := Posted(s.slots, data), posts := s.posts + [data])
    case Search =>
      var i := StatusIndex(s.slots, true);
      if i < |s.slots| then s.(consumer := Holding(i)) else s
    case LinkDown => s.(consumer := Searching)
    case Take =>
      var slot := s.slots[s.consumer.k];
      State(s.slots[s.consumer.k := slot.(status := false)], Searching, s.posts,
            s.takes + [Taken(slot.line, slot.payload)])
  }

  predicate Possible(s: State, steps: seq<Step>)
    decreases |steps|
  {
    steps == [] || (Enabled(s, steps[0]) && Possible(Do(s, steps[0]), steps[1..]))
  }

  function Run(s: State, steps: seq<Step>): State
    requires Possible(s, steps)
    decreases |steps|
  {
    if steps == [] then s else Run(Do(s, steps[0]), steps[1..])
  }

  // ----- histories of one line

  function PostsOf(posts: seq<NodeData>, line: int): seq<seq<bv8>> {
    if posts == [] then []
    else
      var n := |posts| - 1;
      PostsOf(posts[..n], line) + if posts[n].line == line then [posts[n].payload] else []
  }

  function TakesOf(takes: seq<Taken>, line: int): seq<seq<bv8>> {
    if takes == [] then []
    else
      var n := |takes| - 1;
      TakesOf(takes[..n], line) + if takes[n].line == line then [takes[n].payload] else []
  }

  lemma PostsOfAppend(posts: seq<NodeData>, data: NodeData, line: int)
    ensures PostsOf(posts + [data], line)
            == if data.line == line then PostsOf(posts, line) + [data.payload] else PostsOf(posts, line)
  {
    assert (posts + [data])[..|posts|] == posts;
  }

  lemma TakesOfAppend(takes: seq<Taken>, t: Taken, line: int)
    ensures TakesOf(takes + [t], line)
            == if t.line == line then TakesOf(takes, line) + [t.payload] else TakesOf(takes, line)
  {
    assert (takes + [t])[..|takes|] == takes;
  }

  // a is an in-order subsequence of b.
  predicate Embeds(a: seq<seq<bv8>>, b: seq<seq<bv8>>)
    decreases |b|
  {
    a == [] ||
    (b != [] &&
     var m, n := |a| - 1, |b| - 1;
     (a[m] == b[n] && Embeds(a[..m], b[..n])) || Embeds(a, b[..n]))
  }

  // Which means: there are strictly increasing positions of b that spell a.
  lemma {:induction false} EmbeddingPositions(a: seq<seq<bv8>>, b: seq<seq<bv8>>) returns (at: seq<nat>)
    requires Embeds(a, b)
    ensures |at| == |a|
    ensures forall i :: 0 <= i < |at| ==> at[i] < |b| && b[at[i]] == a[i]
    ensures forall i, j :: 0 <= i < j < |at| ==> at[i] < at[j]
    decreases |b|
  {
    if a == [] {
      at := [];
    } else {
      var m, n := |a| - 1, |b| - 1;
      if a[m] == b[n] && Embeds(a[..m], b[..n]) {
        at := EmbeddingPositions(a[..m], b[..n]);
        at := at + [n];
      } else {
        at := EmbeddingPositions(a, b[..n]);
      }
    }
  }

  lemma EmbedsMore(a: seq<seq<bv8>>, b: seq<seq<bv8>>, x: seq<bv8>)
    requires Embeds(a, b)
    ensures Embeds(a, b + [x])
  {
    assert (b + [x])[..|b|] == b;
  }

  lemma EmbedsBoth(a: seq<seq<bv8>>, b: seq<seq<bv8>>, x: seq<bv8>)
    requires Embeds(a, b)
    ensures Embeds(a + [x], b + [x])
  {
    assert (b + [x])[..|b|] == b && (a + [x])[..|a|] == a;
  }

  // ----- the invariant

  // What is known of one slot: pending, it holds the last post, which is not
  // among the takes; not pending, the last take is the last post.
  predicate SlotInv(slot: NodeData, posts: seq<seq<bv8>>, takes: seq<seq<bv8>>) {
    if slot.status then
      posts != [] && posts[|posts| - 1] == slot.payload && Embeds(takes, posts[..|posts| - 1])
    else
      && Embeds(takes, posts)
      && (posts == [] <==> takes == [])
      && (posts != [] && takes != [] ==> takes[|takes| - 1] == posts[|posts| - 1])
  }

  predicate Inv(s: State) {
    && DistinctLines(s.slots)
    && (s.consumer.Holding? ==> s.consumer.k < |s.slots| && s.slots[s.consumer.k].status)
    && forall k :: 0 <= k < |s.slots| ==> SlotOk(s, k)
  }

  lemma PostOnSlot(slot: NodeData, posts: seq<seq<bv8>>, takes: seq<seq<bv8>>, data: NodeData)
    requires SlotInv(slot, posts, takes)
    ensures SlotInv(data.(status := true), posts + [data.payload], takes)
  {
    var more := posts + [data.payload];
    assert more[..|more| - 1] == posts;
    if slot.status {
      var n := |posts| - 1;
      assert posts == posts[..n] + [posts[n]];
      EmbedsMore(takes, posts[..n], posts[n]);
    }
  }

  lemma TakeOnSlot(slot: NodeData, posts: seq<seq<bv8>>, takes: seq<seq<bv8>>)
    requires SlotInv(slot, posts, takes) && slot.status
    ensures SlotInv(slot.(status := false), posts, takes + [slot.payload])
  {
    var n := |posts| - 1;
    assert posts == posts[..n] + [posts[n]];
    EmbedsBoth(takes, posts[..n], posts[n]);
  }

  predicate SlotOk(s: State, k: nat)
    requires k < |s.slots|
  {
    SlotInv(s.slots[k], PostsOf(s.posts, s.slots[k].line), TakesOf(s.takes, s.slots[k].line))
  }

  lemma PostKeepsSlot(s: State, data: NodeData, k: nat)
    requires Inv(s) && Enabled(s, Post(data)) && k < |s.slots|
    ensures SlotOk(Do(s, Post(data)), k)
  {
    var line := s.slots[k].line;
    assert SlotOk(s, k);
    var posts, takes := PostsOf(s.posts, line), TakesOf(s.takes, line);
    hide Embeds, SlotInv;
    PostsOfAppend(s.posts, data, line);
    if line == data.line {
      assert LineIndex(s.slots, line) == k;
      PostOnSlot(s.slots[k], posts, takes, data);
    }
  }

  lemma TakeKeepsSlot(s: State, k: nat)
    requires Inv(s) && Enabled(s, Take) && k < |s.slots|
    ensures SlotOk(Do(s, Take), k)
  {
    var line, slot := s.slots[k].line, s.slots[s.consumer.k];
    assert SlotOk(s, k);
    var posts, takes := PostsOf(s.posts, line), TakesOf(s.takes, line);
    hide Embeds, SlotInv;
    TakesOfAppend(s.takes, Taken(slot.line, slot.payload), line);
    if k == s.consumer.k { TakeOnSlot(slot, posts, takes); }
  }

  lemma StepKeepsInv(s: State, step: Step)
    requires Inv(s) && Enabled(s, step)
    ensures Inv(Do(s, step))
  {
    var t := Do(s, step);
    hide SlotInv;
    match step {
      case Post(data) =>
        PostKeepsLines(s.slots, data);
        forall k | 0 <= k < |t.slots| ensures SlotOk(t, k) { PostKeepsSlot(s, data, k); }
      case Search | LinkDown =>
        forall k | 0 <= k < |t.slots| ensures SlotOk(t, k) { assert SlotOk(s, k); }
      case Take =>
        forall k | 0 <= k < |t.slots| ensures SlotOk(t, k) { TakeKeepsSlot(s, k); }
    }
  }

  predicate Fresh(s: State) {
    && DistinctLines(s.slots) && s.consumer.Searching? && s.posts == [] && s.takes == []
    && forall k :: 0 <= k < |s.slots| ==> !s.slots[k].status
  }

  lemma {:induction false} RunKeepsInv(s: State, steps: seq<Step>)
    requires Inv(s) && Possible(s, steps)
    ensures Inv(Run(s, steps)) && |Run(s, steps).slots| == |s.slots|
    ensures forall k :: 0 <= k < |s.slots| ==> Run(s, steps).slots[k].line == s.slots[k].line
    decreases |steps|
  {
    if steps != [] {
      StepKeepsInv(s, steps[0]);
      RunKeepsInv(Do(s, steps[0]), steps[1..]);
    }
  }

  // Latest wins, in every interleaving: the takes of a line are an in-order
  // subsequence of its posts, and a line with a post is either pending with the
  // last payload or was last taken with it.
  lemma LatestWins(s: State, steps: seq<Step>, k: nat)
    requires Fresh(s) && Possible(s, steps) && k < |s.slots|
    ensures var t := Run(s, steps);
            k < |t.slots| &&
            var line := s.slots[k].line;
            var posts, takes := PostsOf(t.posts, line), TakesOf(t.takes, line);
            && Embeds(takes, posts)
            && (posts != [] ==>
                  var last := posts[|posts| - 1];
                  (t.slots[k].status && t.slots[k].payload == last)
                  || (!t.slots[k].status && takes != [] && takes[|takes| - 1] == last))
  {
    RunKeepsInv(s, steps);
    var t := Run(s, steps);
    var posts, takes := PostsOf(t.posts, s.slots[k].line), TakesOf(t.takes, s.slots[k].line);
    assert SlotOk(t, k);
    if t.slots[k].status {
      var n := |posts| - 1;
      assert posts == posts[..n] + [posts[n]];
      EmbedsMore(takes, posts[..n], posts[n]);
    }
  }

  // ----- draining

  function Pending(slots: seq<NodeData>): nat {
    if slots == [] then 0 else (if slots[0].status then 1 else 0) + Pending(slots[1..])
  }

  lemma {:induction false} PendingZero(slots: seq<NodeData>)
    ensures Pending(slots) == 0 <==> StatusIndex(slots, true) == |slots|
  {
    if slots != [] { PendingZero(slots[1..]); }
  }

  lemma {:induction false} PendingDrops(slots: seq<NodeData>, k: nat)
    requires k < |slots| && slots[k].status
    ensures Pending(slots[k := slots[k].(status := false)]) == Pending(slots) - 1
  {
    var t := slots[k := slots[k].(status := false)];
    if k == 0 {
      assert t[1..] == slots[1..];
    } else {
      assert t[1..] == slots[1..][k - 1 := slots[k].(status := false)];
      PendingDrops(slots[1..], k - 1);
    }
  }

  // The steps of the display thread alone, with the link up: n searches, each
  // followed by a take.
  function Rounds(n: nat): seq<Step> {
    if n == 0 then [] else [Search, Take] + Rounds(n - 1)
  }

  // From a search on, n rounds take n slots.
  lemma {:induction false} RoundsDrain(s: State, n: nat)
    requires Inv(s) && s.consumer.Searching? && n <= Pending(s.slots)
    ensures Possible(s, Rounds(n)) && Drained(s, Run(s, Rounds(n)), n)
    decreases n
  {
    if n > 0 {
      OneRound(s);
      var b := Do(Do(s, Search), Take);
      RoundsDrain(b, n - 1);
      var steps := Rounds(n);
      assert steps[0] == Search && steps[1..] == [Take] + Rounds(n - 1);
      assert steps[1..][0] == Take && steps[1..][1..] == Rounds(n - 1);
    }
  }

  // n slots have been taken and nothing else has changed.
  predicate Drained(s: State, t: State, n: nat) {
    && Pending(t.slots) == Pending(s.slots) - n
    && |t.takes| == |s.takes| + n
    && t.posts == s.posts && t.consumer.Searching? && Inv(t)
  }

  // The same when posting stops while the thread holds a slot: it takes that one
  // first.
  function DrainSteps(s: State, n: nat): seq<Step> {
    if s.consumer.Holding? && n > 0 then [Take] + Rounds(n - 1) else Rounds(n)
  }

  // Once posting has stopped, wherever the display thread then is, as many takes
  // as there are pending slots empty the mailbox, and one take fewer does not.
  lemma Drains(s: State, n: nat)
    requires Inv(s) && n <= Pending(s.slots) && (s.consumer.Holding? ==> n > 0)
    ensures Possible(s, DrainSteps(s, n)) && Drained(s, Run(s, DrainSteps(s, n)), n)
  {
    if s.consumer.Holding? {
      StepKeepsInv(s, Take);
      PendingDrops(s.slots, s.consumer.k);
      RoundsDrain(Do(s, Take), n - 1);
      var steps := DrainSteps(s, n);
      assert steps[0] == Take && steps[1..] == Rounds(n - 1);
    } else {
      RoundsDrain(s, n);
    }
  }

  // A thread that holds a slot finds it pending, so there is something to take.
  lemma {:induction false} HeldSlotIsPending(slots: seq<NodeData>, k: nat)
    requires k < |slots| && slots[k].status
    ensures Pending(slots) > 0
  {
    if k > 0 { HeldSlotIsPending(slots[1..], k - 1); }
  }

  lemma MailboxEmpties(s: State)
    requires Inv(s)
    ensures var n := Pending(s.slots);
            Possible(s, DrainSteps(s, n)) && Drained(s, Run(s, DrainSteps(s, n)), n)
            && StatusIndex(Run(s, DrainSteps(s, n)).slots, true) == |Run(s, DrainSteps(s, n)).slots|
  {
    if s.consumer.Holding? { HeldSlotIsPending(s.slots, s.consumer.k); }
    Drains(s, Pending(s.slots));
    hide Inv, Run, Possible;
    PendingZero(Run(s, DrainSteps(s, Pending(s.slots))).slots);
  }

  lemma OneRound(s: State)
    requires Inv(s) && s.consumer.Searching? && Pending(s.slots) > 0
    ensures Enabled(Do(s, Search), Take)
    ensures var b := Do(Do(s, Search), Take);
            && Inv(b) && b.consumer.Searching? && b.posts == s.posts
            && Pending(b.slots) == Pending(s.slots) - 1 && |b.takes| == |s.takes| + 1
  {
    PendingZero(s.slots);
    StepKeepsInv(s, Search);
    var a := Do(s, Search);
    StepKeepsInv(a, Take);
    PendingDrops(s.slots, a.consumer.k);
  }

  // With the link down the thread gives its slot back and takes nothing: the slot stays
  // pending, and the next search finds the first pending one.
  lemma LinkDownKeepsSlots(s: State)
    requires Inv(s) && s.consumer.Holding?
    ensures Possible(s, [LinkDown, Search])
    ensures var t := Run(s, [LinkDown, Search]);
            && t.slots == s.slots && t.takes == s.takes && t.posts == s.posts
            && t.consumer == Holding(StatusIndex(s.slots, true))
  {
    assert [LinkDown, Search][1..] == [Search] && [Search][1..] == [];
    var a := Do(s, LinkDown);
    assert StatusIndex(s.slots, true) < |s.slots|;
    assert Possible(a, [Search]) && Run(a, [Search]) == Run(Do(a, Search), []);
  }

  // One round of the display thread on the real list, with nobody in between:
  // search, link check, take, and the frame is written twice.
  method DisplayRound(list: Klist, linkUp: bool) returns (written: seq<seq<bv8>>)
    requires list.Valid()
    modifies list.nodes
    ensures list.Valid() && list.nodes == old(list.nodes)
    ensures var s := State(old(list.Slots()), Searching, [], []);
            if Do(s, Search).consumer.Holding? && linkUp then
              var t := Do(Do(s, Search), Take);
              list.Slots() == t.slots && written == [t.takes[0].payload, t.takes[0].payload]
            else list.Slots() == s.slots && written == []
  {
    written := [];
    var node := list.FindNode(true);
    if node == null || !linkUp {
      return;
    }
    ghost var k := StatusIndex(list.Slots(), true);
    var buff := list.Take(node, k);
    written := [buff, buff];
  }
}
