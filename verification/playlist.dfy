/** The shared player store (`usePlayer`) and the playlist navigation the
    player component performs over it: `onPlayNext` and `onPlayPrevious`
    in components/PlayerContent.tsx. */
module Playlist {
  import opened Optional

  /** The store: the ordered track identifiers (duplicates allowed) and the
      active identifier, which need not occur in `ids`. */
  datatype Store = Store(ids: seq<string>, activeId: Option<string>)

  /** `player.setId(id)`: assigns the active identifier and nothing else. */
  function SetId(s: Store, id: string): (r: Store)
    ensures r.ids == s.ids
    ensures r.activeId == Some(id)
  {
    s.(activeId := Some(id))
  }

  /** `ids.findIndex(id => id === activeId)`: the first position holding the
      active identifier, or -1 (see `FindIndexSpec`). An undefined active
      identifier matches nothing. */
  function FindIndex(ids: seq<string>, active: Option<string>): (i: int)
    ensures -1 <= i < |ids|
  {
    FindFrom(ids, active, 0)
  }

  /** The search behind `FindIndex`, scanning from position `from`. */
  function FindFrom(ids: seq<string>, active: Option<string>, from: nat): (i: int)
    requires from <= |ids|
    ensures i == -1 || from <= i < |ids|
    decreases |ids| - from
  {
    if from == |ids| then -1
    else if active == Some(ids[from]) then from
    else FindFrom(ids, active, from + 1)
  }

  lemma {:induction false} FindFromSpec(ids: seq<string>, active: Option<string>, from: nat)
    requires from <= |ids|
    ensures var i := FindFrom(ids, active, from);
      && (0 <= i ==> active == Some(ids[i]))
      && (0 <= i ==> forall j :: from <= j < i ==> active != Some(ids[j]))
      && (i == -1 <==> forall j :: from <= j < |ids| ==> active != Some(ids[j]))
    decreases |ids| - from
  {
    if from < |ids| && active != Some(ids[from]) {
      FindFromSpec(ids, active, from + 1);
    }
  }

  /** `FindIndex` is -1 exactly when no element is the active identifier;
      otherwise the element there is, and no earlier one is. */
  lemma FindIndexSpec(ids: seq<string>, active: Option<string>)
    ensures var i := FindIndex(ids, active);
      && (0 <= i ==> active == Some(ids[i]))
      && (0 <= i ==> forall j :: 0 <= j < i ==> active != Some(ids[j]))
      && (i == -1 <==> forall j :: 0 <= j < |ids| ==> active != Some(ids[j]))
  {
    FindFromSpec(ids, active, 0);
  }

  /** JavaScript array indexing: `undefined` outside the bounds. */
  function At(ids: seq<string>, i: int): (r: Option<string>)
    ensures r.Some? <==> 0 <= i < |ids|
    ensures r.Some? ==> r.value == ids[i]
  {
    if 0 <= i < |ids| then Some(ids[i]) else None
  }

  /** JavaScript truthiness of an optional string: defined and not "". */
  predicate Truthy(o: Option<string>) {
    o.Some? && o.value != ""
  }

  /** `onPlayNext`: nothing on an empty list; otherwise the element after the
      first occurrence of the active identifier, wrapping to the first
      element when that neighbour is missing or "". */
  function PlayNext(s: Store): (r: Store)
    ensures r.ids == s.ids
    ensures |s.ids| == 0 ==> r == s
    ensures |s.ids| > 0 ==> r.activeId.Some? && r.activeId.value in s.ids
  {
    if |s.ids| == 0 then s
    else
      var next := At(s.ids, FindIndex(s.ids, s.activeId) + 1);
      if !Truthy(next) then SetId(s, s.ids[0])
      else SetId(s, next.value)
  }

  /** `onPlayPrevious`: the mirror image of `PlayNext`, wrapping to the last
      element. */
  function PlayPrevious(s: Store): (r: Store)
    ensures r.ids == s.ids
    ensures |s.ids| == 0 ==> r == s
    ensures |s.ids| > 0 ==> r.activeId.Some? && r.activeId.value in s.ids
  {
    if |s.ids| == 0 then s
    else
      var previous := At(s.ids, FindIndex(s.ids, s.activeId) - 1);
      if !Truthy(previous) then SetId(s, s.ids[|s.ids| - 1])
      else SetId(s, previous.value)
  }

  /** `i` is the first position of `x` in `ids`. */
  predicate FirstAt(ids: seq<string>, x: string, i: int) {
    && 0 <= i < |ids|
    && ids[i] == x
    && forall j :: 0 <= j < i ==> ids[j] != x
  }

  /** A playlist on which navigation is a true cycle: no duplicates and no
      empty identifiers. */
  predicate Cyclic(ids: seq<string>) {
    && (forall j :: 0 <= j < |ids| ==> ids[j] != "")
    && (forall j, k :: 0 <= j < k < |ids| ==> ids[j] != ids[k])
  }

  lemma FindIndexFirst(ids: seq<string>, x: string, i: int)
    requires FirstAt(ids, x, i)
    ensures FindIndex(ids, Some(x)) == i
  {
    FindIndexSpec(ids, Some(x));
    assert Some(x) == Some(ids[i]);
  }

  lemma FindIndexDistinct(ids: seq<string>, i: int)
    requires Cyclic(ids)
    requires 0 <= i < |ids|
    ensures FindIndex(ids, Some(ids[i])) == i
  {
    FindIndexFirst(ids, ids[i], i);
  }

  /** The forward case: a non-empty neighbour after the first occurrence is
      chosen. */
  lemma PlayNextAdvances(s: Store, x: string, i: int)
    requires s.activeId == Some(x)
    requires FirstAt(s.ids, x, i)
    requires i + 1 < |s.ids| && s.ids[i + 1] != ""
    ensures PlayNext(s).activeId == Some(s.ids[i + 1])
  {
    FindIndexFirst(s.ids, x, i);
  }

  /** The wrap case: when the active identifier is last, is absent (index -1),
      or is followed by "", the first element is chosen. */
  lemma PlayNextWraps(s: Store)
    requires |s.ids| > 0
    requires var i := FindIndex(s.ids, s.activeId);
      i == -1 || i == |s.ids| - 1 || s.ids[i + 1] == ""
    ensures PlayNext(s).activeId == Some(s.ids[0])
  {
  }

  /** The backward case: a non-empty neighbour before the first occurrence
      is chosen. */
  lemma PlayPreviousRetreats(s: Store, x: string, i: int)
    requires s.activeId == Some(x)
    requires FirstAt(s.ids, x, i)
    requires 0 < i && s.ids[i - 1] != ""
    ensures PlayPrevious(s).activeId == Some(s.ids[i - 1])
  {
    FindIndexFirst(s.ids, x, i);
  }

  /** The wrap case backwards: at index 0, when absent (index -1), or when
      preceded by "", the last element is chosen. */
  lemma PlayPreviousWraps(s: Store)
    requires |s.ids| > 0
    requires var i := FindIndex(s.ids, s.activeId);
      i <= 0 || s.ids[i - 1] == ""
    ensures PlayPrevious(s).activeId == Some(s.ids[|s.ids| - 1])
  {
  }

  /** The position after position i in a cycle of length n. */
  function Succ(i: int, n: int): int {
    if i + 1 < n then i + 1 else 0
  }

  /** The position before position i in a cycle of length n. */
  function Pred(i: int, n: int): int {
    if 0 < i then i - 1 else n - 1
  }

  /** On a cyclic playlist, next moves to the following position, wrapping
      at the end. */
  lemma PlayNextStep(s: Store, i: int)
    requires Cyclic(s.ids)
    requires 0 <= i < |s.ids|
    requires s.activeId == Some(s.ids[i])
    ensures PlayNext(s) == s.(activeId := Some(s.ids[Succ(i, |s.ids|)]))
  {
    FindIndexDistinct(s.ids, i);
  }

  /** On a cyclic playlist, previous moves to the preceding position,
      wrapping at the start. */
  lemma PlayPreviousStep(s: Store, i: int)
    requires Cyclic(s.ids)
    requires 0 <= i < |s.ids|
    requires s.activeId == Some(s.ids[i])
    ensures PlayPrevious(s) == s.(activeId := Some(s.ids[Pred(i, |s.ids|)]))
  {
    FindIndexDistinct(s.ids, i);
  }

  /** Next then previous returns to the starting track, and so does previous
      then next, on a playlist without duplicates or empty identifiers that
      contains the active track. */
  lemma NextPreviousInverse(s: Store)
    requires Cyclic(s.ids)
    requires s.activeId.Some? && s.activeId.value in s.ids
    ensures PlayPrevious(PlayNext(s)) == s
    ensures PlayNext(PlayPrevious(s)) == s
  {
    var n := |s.ids|;
    var i :| 0 <= i < n && s.ids[i] == s.activeId.value;
    PlayNextStep(s, i);
    PlayPreviousStep(PlayNext(s), Succ(i, n));
    PlayPreviousStep(s, i);
    PlayNextStep(PlayPrevious(s), Pred(i, n));
  }

  /** `PlayNext` applied k times. */
  function NextN(s: Store, k: nat): (r: Store)
    ensures r.ids == s.ids
  {
    if k == 0 then s else PlayNext(NextN(s, k - 1))
  }

  /** `PlayPrevious` applied k times. */
  function PreviousN(s: Store, k: nat): (r: Store)
    ensures r.ids == s.ids
  {
    if k == 0 then s else PlayPrevious(PreviousN(s, k - 1))
  }

  /** Position i moved k <= n steps forward in a cycle of length n. */
  function Forward(i: int, k: int, n: int): int {
    if i + k < n then i + k else i + k - n
  }

  /** Position i moved k <= n steps back in a cycle of length n. */
  function Backward(i: int, k: int, n: int): int {
    if k <= i then i - k else i - k + n
  }

  /** k steps forward from position i land on i + k, taken modulo n. */
  lemma {:induction false} NextNPosition(s: Store, i: int, k: nat)
    requires Cyclic(s.ids)
    requires 0 <= i < |s.ids|
    requires k <= |s.ids|
    requires s.activeId == Some(s.ids[i])
    ensures NextN(s, k).activeId == Some(s.ids[Forward(i, k, |s.ids|)])
  {
    if k > 0 {
      var n := |s.ids|;
      NextNPosition(s, i, k - 1);
      var j := Forward(i, k - 1, n);
      var prev := NextN(s, k - 1);
      assert prev.activeId == Some(prev.ids[j]);
      PlayNextStep(prev, j);
      assert Succ(j, n) == Forward(i, k, n);
    }
  }

  /** k steps back from position i land on i - k, taken modulo n. */
  lemma {:induction false} PreviousNPosition(s: Store, i: int, k: nat)
    requires Cyclic(s.ids)
    requires 0 <= i < |s.ids|
    requires k <= |s.ids|
    requires s.activeId == Some(s.ids[i])
    ensures PreviousN(s, k).activeId == Some(s.ids[Backward(i, k, |s.ids|)])
  {
    if k > 0 {
      var n := |s.ids|;
      PreviousNPosition(s, i, k - 1);
      var j := Backward(i, k - 1, n);
      var prev := PreviousN(s, k - 1);
      assert prev.activeId == Some(prev.ids[j]);
      PlayPreviousStep(prev, j);
      assert Pred(j, n) == Backward(i, k, n);
    }
  }

  /** Going forward (or backward) |ids| times from a track of a cyclic
      playlist comes back to that track. */
  lemma NextCycle(s: Store)
    requires Cyclic(s.ids)
    requires s.activeId.Some? && s.activeId.value in s.ids
    ensures NextN(s, |s.ids|) == s
    ensures PreviousN(s, |s.ids|) == s
  {
    var n := |s.ids|;
    var i :| 0 <= i < n && s.ids[i] == s.activeId.value;
    NextNPosition(s, i, n);
    assert NextN(s, n).activeId == s.activeId;
    PreviousNPosition(s, i, n);
    assert PreviousN(s, n).activeId == s.activeId;
  }

  /** Two stores that `PlayNext` swaps alternate forever. */
  lemma {:induction false} NextNAlternates(x: Store, y: Store, m: nat)
    requires PlayNext(x) == y && PlayNext(y) == x
    ensures NextN(x, 2 * m) == x && NextN(x, 2 * m + 1) == y
  {
    if m > 0 {
      NextNAlternates(x, y, m - 1);
      assert NextN(x, 2 * m) == PlayNext(NextN(x, 2 * m - 1));
      assert NextN(x, 2 * m + 1) == PlayNext(NextN(x, 2 * m));
    }
  }

  /** With a duplicate, navigation can get stuck: when the third track
      repeats the first, as in [a, b, a, c], `PlayNext` from the first track
      alternates between the first two forever and never reaches the rest,
      because the lookup always finds the first occurrence. */
  lemma DuplicateTrapsNavigation(ids: seq<string>, k: nat)
    requires |ids| >= 3 && ids[2] == ids[0]
    requires ids[0] != "" && ids[1] != "" && ids[1] != ids[0]
    ensures NextN(Store(ids, Some(ids[0])), k).activeId
         == if k % 2 == 0 then Some(ids[0]) else Some(ids[1])
  {
    var a := Store(ids, Some(ids[0]));
    var b := Store(ids, Some(ids[1]));
    PlayNextAdvances(a, ids[0], 0);
    PlayNextAdvances(b, ids[1], 1);
    NextNAlternates(a, b, k / 2);
    if k % 2 == 0 {
      assert NextN(a, k) == a;
    } else {
      assert NextN(a, k) == b;
    }
  }

  /** The walk-through a, b, c: from b, next gives c, next wraps to a, and
      previous wraps back to c. */
  lemma ThreeTrackWalk()
    ensures var s0 := Store(["a", "b", "c"], Some("b"));
      && PlayNext(s0).activeId == Some("c")
      && PlayNext(PlayNext(s0)).activeId == Some("a")
      && PlayPrevious(PlayNext(PlayNext(s0))).activeId == Some("c")
  {
    var ids := ["a", "b", "c"];
    assert Cyclic(ids);
    PlayNextStep(Store(ids, Some("b")), 1);
    PlayNextStep(Store(ids, Some("c")), 2);
    PlayPreviousStep(Store(ids, Some("a")), 0);
  }
}
