/**
 The drawing history: `AddCommand` and the `UndoRedo` log of
 dl_markup/UndoRedo.py and its twin dl_markup/undo_redo.py.

 The scene the log mutates is a set of opaque item ids. A command carries the id
 of the item it adds together with the item's shape data `S`. The log record holds
 both stacks and the scene, because `UndoRedo` keeps a reference to the scene it
 was built with and every one of its operations acts on that scene.
 */
module History {

  /** The identity of a scene item (a Python object in the source). */
  type ItemId = nat

  /** `AddCommand(item, scene)`: adding one item is the only kind of command. */
  datatype Command<S> = AddCommand(item: ItemId, shape: S)

  /** `UndoRedo`: the undo stack, the redo stack (tops at the end) and the scene. */
  datatype Log<S> = Log(undo: seq<Command<S>>, redo: seq<Command<S>>, scene: set<ItemId>)

  /** `AddCommand.execute`: `scene.addItem(item)`. */
  function Execute<S>(c: Command<S>, scene: set<ItemId>): (r: set<ItemId>)
    ensures c.item in r
    ensures forall x :: x != c.item ==> (x in r <==> x in scene)
  {
    scene + {c.item}
  }

  /** `AddCommand.un_execute`: `scene.removeItem(item)`; removing an absent item does nothing. */
  function UnExecute<S>(c: Command<S>, scene: set<ItemId>): (r: set<ItemId>)
    ensures c.item !in r
    ensures forall x :: x != c.item ==> (x in r <==> x in scene)
  {
    scene - {c.item}
  }

  /** The ids of the items a sequence of commands adds. */
  function Items<S>(cs: seq<Command<S>>): set<ItemId>
    decreases |cs|
  {
    if cs == [] then {} else Items(cs[..|cs| - 1]) + {cs[|cs| - 1].item}
  }

  function Reverse<T>(s: seq<T>): (r: seq<T>)
    ensures |r| == |s|
    ensures forall i :: 0 <= i < |s| ==> r[i] == s[|s| - 1 - i]
  {
    seq(|s|, i requires 0 <= i < |s| => s[|s| - 1 - i])
  }

  /** How many commands `for _ in range(levels)` moves off a stack of the given depth. */
  function Moved(levels: int, depth: nat): (k: nat)
    ensures k <= depth
    ensures levels <= 0 ==> k == 0
    ensures levels > 0 ==> k == (if levels < depth then levels else depth)
  {
    if levels <= 0 then 0 else if levels < depth then levels else depth
  }

  /** `UndoRedo(scene)`: an empty history over an existing scene. */
  function Init<S>(scene: set<ItemId>): (r: Log<S>)
    ensures r.undo == [] && r.redo == [] && r.scene == scene
  {
    Log([], [], scene)
  }

  /**
   `r` is `log` with its top `k` undo commands moved onto the redo stack, most
   recent first, and their items taken out of the scene.
   */
  ghost predicate UndoneTop<S>(log: Log<S>, k: nat, r: Log<S>) {
    && k <= |log.undo|
    && r.undo == log.undo[..|log.undo| - k]
    && r.redo == log.redo + Reverse(log.undo[|log.undo| - k..])
    && r.scene == log.scene - Items(log.undo[|log.undo| - k..])
  }

  /**
   `r` is `log` with its top `k` redo commands moved back onto the undo stack,
   most recently undone first, and their items put back into the scene.
   */
  ghost predicate RedoneTop<S>(log: Log<S>, k: nat, r: Log<S>) {
    && k <= |log.redo|
    && r.redo == log.redo[..|log.redo| - k]
    && r.undo == log.undo + Reverse(log.redo[|log.redo| - k..])
    && r.scene == log.scene + Items(log.redo[|log.redo| - k..])
  }

  /** One iteration of the `undo` loop: pop, un-execute, push on the redo stack. */
  function PopUndo<S>(log: Log<S>): Log<S>
    requires log.undo != []
  {
    var c := log.undo[|log.undo| - 1];
    Log(log.undo[..|log.undo| - 1], log.redo + [c], UnExecute(c, log.scene))
  }

  /** One iteration of the `redo` loop: pop, execute, push on the undo stack. */
  function PopRedo<S>(log: Log<S>): Log<S>
    requires log.redo != []
  {
    var c := log.redo[|log.redo| - 1];
    Log(log.undo + [c], log.redo[..|log.redo| - 1], Execute(c, log.scene))
  }

  /**
   `undo(levels)`: pop a command off the undo stack, un-execute it and push it on
   the redo stack, `levels` times or until the undo stack is empty.
   */
  function Undo<S>(log: Log<S>, levels: int): (r: Log<S>)
    ensures UndoneTop(log, Moved(levels, |log.undo|), r)
    decreases levels
  {
    if levels <= 0 || log.undo == [] then
      NothingMoved(log);
      log
    else
      var r := Undo(PopUndo(log), levels - 1);
      UndoStep(log, Moved(levels, |log.undo|), r);
      r
  }

  /**
   `redo(levels)`: pop a command off the redo stack, execute it and push it on the
   undo stack, `levels` times or until the redo stack is empty.
   */
  function Redo<S>(log: Log<S>, levels: int): (r: Log<S>)
    ensures RedoneTop(log, Moved(levels, |log.redo|), r)
    decreases levels
  {
    if levels <= 0 || log.redo == [] then
      NothingMoved(log);
      log
    else
      var r := Redo(PopRedo(log), levels - 1);
      RedoStep(log, Moved(levels, |log.redo|), r);
      r
  }

  /** `insert_in_undo_redo(command)`: record a command without executing it; the redo lineage is dropped. */
  function Insert<S>(log: Log<S>, c: Command<S>): (r: Log<S>)
    ensures |r.undo| == |log.undo| + 1 && r.undo[..|log.undo|] == log.undo
    ensures r.undo[|log.undo|] == c
    ensures r.redo == []
    ensures r.scene == log.scene
  {
    Log(log.undo + [c], [], log.scene)
  }

  /** `insert_in_undo_redo_add(item)`: execute a fresh `AddCommand`, then record it. */
  function InsertAdd<S>(log: Log<S>, item: ItemId, shape: S): (r: Log<S>)
    ensures |r.undo| == |log.undo| + 1 && r.undo[..|log.undo|] == log.undo
    ensures r.undo[|log.undo|] == AddCommand(item, shape)
    ensures r.redo == []
    ensures r.scene == log.scene + {item}
  {
    var c := AddCommand(item, shape);
    Insert(log.(scene := Execute(c, log.scene)), c)
  }

  /** `clear()`: forget both stacks without touching the scene. */
  function Clear<S>(log: Log<S>): (r: Log<S>)
    ensures r.undo == [] && r.redo == []
    ensures r.scene == log.scene
  {
    log.(undo := [], redo := [])
  }

  /**
   The full recorded timeline: the applied commands in the order they were first
   executed, followed by the undone ones in the order they would be redone.
   */
  function Timeline<S>(log: Log<S>): seq<Command<S>> {
    log.undo + Reverse(log.redo)
  }

  predicate Distinct<S>(cs: seq<Command<S>>) {
    forall i, j :: 0 <= i < j < |cs| ==> cs[i].item != cs[j].item
  }

  /**
   The log invariant: every recorded command adds its own item, no item lies in
   `base` (the items the log does not own), and the scene is `base` plus exactly
   the items of the undo stack.
   */
  predicate Consistent<S>(log: Log<S>, base: set<ItemId>) {
    && Distinct(Timeline(log))
    && base !! Items(Timeline(log))
    && log.scene == base + Items(log.undo)
  }

  // ---------------------------------------------------------------- lemmas

  lemma NothingMoved<S>(log: Log<S>)
    ensures UndoneTop(log, 0, log) && RedoneTop(log, 0, log)
  {
    assert log.undo[|log.undo|..] == [] && log.redo[|log.redo|..] == [];
  }

  /** Popping once and then moving `k - 1` more commands moves the top `k`. */
  lemma UndoStep<S>(log: Log<S>, k: nat, r: Log<S>)
    requires log.undo != [] && 1 <= k
    requires UndoneTop(PopUndo(log), k - 1, r)
    ensures UndoneTop(log, k, r)
  {
    PopSlices(log.undo, k);
    UndoStepRedo(log, k, r);
    UndoStepScene(log, k, r);
  }

  lemma UndoStepRedo<S>(log: Log<S>, k: nat, r: Log<S>)
    requires log.undo != [] && 1 <= k
    requires UndoneTop(PopUndo(log), k - 1, r)
    ensures r.redo == log.redo + Reverse(log.undo[|log.undo| - k..])
  {
    var n := |log.undo|;
    var rest := log.undo[n - k..n - 1];
    PopSlices(log.undo, k);
    assert r.redo == (log.redo + [log.undo[n - 1]]) + Reverse(rest);
    PushedReverse(log.redo, rest, log.undo[n - 1]);
  }

  lemma UndoStepScene<S>(log: Log<S>, k: nat, r: Log<S>)
    requires log.undo != [] && 1 <= k
    requires UndoneTop(PopUndo(log), k - 1, r)
    ensures r.scene == log.scene - Items(log.undo[|log.undo| - k..])
  {
    var n := |log.undo|;
    var rest := log.undo[n - k..n - 1];
    PopSlices(log.undo, k);
    assert r.scene == UnExecute(log.undo[n - 1], log.scene) - Items(rest);
    RemovedItems(log.scene, rest, log.undo[n - 1]);
  }

  /** Popping once and then moving `k - 1` more commands moves the top `k`. */
  lemma RedoStep<S>(log: Log<S>, k: nat, r: Log<S>)
    requires log.redo != [] && 1 <= k
    requires RedoneTop(PopRedo(log), k - 1, r)
    ensures RedoneTop(log, k, r)
  {
    PopSlices(log.redo, k);
    RedoStepUndo(log, k, r);
    RedoStepScene(log, k, r);
  }

  lemma RedoStepUndo<S>(log: Log<S>, k: nat, r: Log<S>)
    requires log.redo != [] && 1 <= k
    requires RedoneTop(PopRedo(log), k - 1, r)
    ensures r.undo == log.undo + Reverse(log.redo[|log.redo| - k..])
  {
    var n := |log.redo|;
    var rest := log.redo[n - k..n - 1];
    PopSlices(log.redo, k);
    assert r.undo == (log.undo + [log.redo[n - 1]]) + Reverse(rest);
    PushedReverse(log.undo, rest, log.redo[n - 1]);
  }

  lemma RedoStepScene<S>(log: Log<S>, k: nat, r: Log<S>)
    requires log.redo != [] && 1 <= k
    requires RedoneTop(PopRedo(log), k - 1, r)
    ensures r.scene == log.scene + Items(log.redo[|log.redo| - k..])
  {
    var n := |log.redo|;
    var rest := log.redo[n - k..n - 1];
    PopSlices(log.redo, k);
    assert r.scene == Execute(log.redo[n - 1], log.scene) + Items(rest);
    AddedItems(log.scene, rest, log.redo[n - 1]);
  }

  /** The slices of a stack before and after popping its top. */
  lemma PopSlices<T>(s: seq<T>, k: nat)
    requires 1 <= k <= |s|
    ensures s[..|s| - 1][..|s| - k] == s[..|s| - k]
    ensures s[..|s| - 1][|s| - k..] == s[|s| - k..|s| - 1]
    ensures s[|s| - k..] == s[|s| - k..|s| - 1] + [s[|s| - 1]]
  {
  }

  lemma PushedReverse<T>(stack: seq<T>, rest: seq<T>, c: T)
    ensures (stack + [c]) + Reverse(rest) == stack + Reverse(rest + [c])
  {
    ReverseAppend(rest, [c]);
    assert Reverse([c]) == [c];
  }

  lemma RemovedItems<S>(scene: set<ItemId>, rest: seq<Command<S>>, c: Command<S>)
    ensures UnExecute(c, scene) - Items(rest) == scene - Items(rest + [c])
  {
    ItemsAppend(rest, [c]);
    assert Items([c]) == {c.item};
  }

  lemma AddedItems<S>(scene: set<ItemId>, rest: seq<Command<S>>, c: Command<S>)
    ensures Execute(c, scene) + Items(rest) == scene + Items(rest + [c])
  {
    ItemsAppend(rest, [c]);
    assert Items([c]) == {c.item};
  }

  lemma AppendSlices<T>(a: seq<T>, b: seq<T>)
    ensures (a + b)[..|a|] == a && (a + b)[|a|..] == b
  {
  }

  lemma SplitAppend<T>(a: seq<T>, b: seq<T>, m: nat)
    requires m <= |a|
    ensures (a + b)[..m] == a[..m] && (a + b)[m..] == a[m..] + b
    ensures a == a[..m] + a[m..]
  {
  }

  lemma {:induction false} ItemsAppend<S>(a: seq<Command<S>>, b: seq<Command<S>>)
    ensures Items(a + b) == Items(a) + Items(b)
    decreases |b|
  {
    if b == [] {
      assert a + b == a;
    } else {
      var b' := b[..|b| - 1];
      assert (a + b)[..|a + b| - 1] == a + b';
      ItemsAppend(a, b');
    }
  }

  /** An id is recorded exactly when some command in the sequence adds it. */
  lemma {:induction false} ItemsIndex<S>(cs: seq<Command<S>>, x: ItemId)
    ensures x in Items(cs) <==> exists i :: 0 <= i < |cs| && cs[i].item == x
    decreases |cs|
  {
    if cs != [] {
      var cs' := cs[..|cs| - 1];
      ItemsIndex(cs', x);
      if x in Items(cs') {
        var i :| 0 <= i < |cs'| && cs'[i].item == x;
        assert cs[i] == cs'[i];
      }
      if exists i :: 0 <= i < |cs| && cs[i].item == x {
        var i :| 0 <= i < |cs| && cs[i].item == x;
        if i < |cs'| { assert cs'[i] == cs[i]; }
      }
    }
  }

  lemma ItemsReverse<S>(s: seq<Command<S>>)
    ensures Items(Reverse(s)) == Items(s)
  {
    var r := Reverse(s);
    forall x | x in Items(s) ensures x in Items(r) {
      ItemsIndex(s, x);
      var i :| 0 <= i < |s| && s[i].item == x;
      assert r[|s| - 1 - i] == s[i];
      ItemsIndex(r, x);
    }
    forall x | x in Items(r) ensures x in Items(s) {
      ItemsIndex(r, x);
      var i :| 0 <= i < |r| && r[i].item == x;
      assert s[|s| - 1 - i] == r[i];
      ItemsIndex(s, x);
    }
  }

  lemma {:induction false} ReverseReverse<T>(s: seq<T>)
    ensures Reverse(Reverse(s)) == s
  {
    var r := Reverse(s);
    assert forall i :: 0 <= i < |s| ==> Reverse(r)[i] == r[|s| - 1 - i] == s[i];
  }

  lemma ReverseAppend<T>(a: seq<T>, b: seq<T>)
    ensures Reverse(a + b) == Reverse(b) + Reverse(a)
  {
    var r := Reverse(a + b);
    var q := Reverse(b) + Reverse(a);
    assert |r| == |q|;
    forall i | 0 <= i < |r| ensures r[i] == q[i] {
      if i < |b| {
        assert r[i] == (a + b)[|a| + |b| - 1 - i] == b[|b| - 1 - i];
      } else {
        assert r[i] == (a + b)[|a| + |b| - 1 - i] == a[|a| + |b| - 1 - i];
      }
    }
  }

  /** `un_execute` after `execute` restores a scene that did not hold the item. */
  lemma ExecuteUnExecute<S>(c: Command<S>, scene: set<ItemId>)
    requires c.item !in scene
    ensures UnExecute(c, Execute(c, scene)) == scene
  {
  }

  /** `execute` after `un_execute` restores a scene that held the item. */
  lemma UnExecuteExecute<S>(c: Command<S>, scene: set<ItemId>)
    requires c.item in scene
    ensures Execute(c, UnExecute(c, scene)) == scene
  {
  }

  /** Reverting the same command twice removes nothing more than reverting it once. */
  lemma UnExecuteIdempotent<S>(c: Command<S>, scene: set<ItemId>)
    ensures UnExecute(c, UnExecute(c, scene)) == UnExecute(c, scene)
  {
  }

  /** Undo and redo only move commands between the stacks: the total count is kept. */
  lemma UndoRedoKeepCount<S>(log: Log<S>, levels: int)
    ensures |Undo(log, levels).undo| + |Undo(log, levels).redo| == |log.undo| + |log.redo|
    ensures |Redo(log, levels).undo| + |Redo(log, levels).redo| == |log.undo| + |log.redo|
  {
  }

  lemma ReverseOfPushed<T>(stack: seq<T>, moved: seq<T>)
    ensures Reverse(stack + Reverse(moved)) == moved + Reverse(stack)
  {
    ReverseAppend(stack, Reverse(moved));
    ReverseReverse(moved);
  }

  lemma UndoneTimeline<S>(log: Log<S>, k: nat, r: Log<S>)
    requires UndoneTop(log, k, r)
    ensures Timeline(r) == Timeline(log)
  {
    var kept := log.undo[..|log.undo| - k];
    var moved := log.undo[|log.undo| - k..];
    ReverseOfPushed(log.redo, moved);
    assert log.undo == kept + moved;
  }

  /** Undo never loses or reorders history: the recorded timeline is unchanged. */
  lemma UndoKeepsTimeline<S>(log: Log<S>, levels: int)
    ensures Timeline(Undo(log, levels)) == Timeline(log)
  {
    UndoneTimeline(log, Moved(levels, |log.undo|), Undo(log, levels));
  }

  /** Redo never loses or reorders history: the recorded timeline is unchanged. */
  lemma RedoKeepsTimeline<S>(log: Log<S>, levels: int)
    ensures Timeline(Redo(log, levels)) == Timeline(log)
  {
    var n := |log.redo|;
    var k := Moved(levels, n);
    var r := Redo(log, levels);
    var kept := log.redo[..n - k];
    var moved := log.redo[n - k..];
    assert Reverse(log.redo) == Reverse(moved) + Reverse(kept) by {
      assert kept + moved == log.redo;
      ReverseAppend(kept, moved);
    }
    assert (log.undo + Reverse(moved)) + Reverse(kept) == log.undo + (Reverse(moved) + Reverse(kept));
  }

  /** The scene holds exactly the items of the undo stack, plus whatever the log does not own. */
  lemma ConsistentScene<S>(log: Log<S>, base: set<ItemId>)
    requires Consistent(log, base)
    ensures forall x :: x in log.scene <==> x in base || x in Items(log.undo)
    ensures Items(log.redo) !! log.scene
  {
    var t := Timeline(log);
    DistinctSplit(t, |log.undo|);
    AppendSlices(log.undo, Reverse(log.redo));
    ItemsAppend(log.undo, Reverse(log.redo));
    ItemsReverse(log.redo);
  }

  /** A duplicate-free sequence splits into two parts with disjoint items. */
  lemma DistinctSplit<S>(cs: seq<Command<S>>, m: nat)
    requires Distinct(cs) && m <= |cs|
    ensures Items(cs[..m]) !! Items(cs[m..])
  {
    forall x | x in Items(cs[..m]) ensures x !in Items(cs[m..]) {
      ItemsIndex(cs[..m], x);
      var i :| 0 <= i < m && cs[..m][i].item == x;
      assert cs[i] == cs[..m][i];
      forall j | 0 <= j < |cs| - m ensures cs[m..][j].item != x {
        assert cs[m..][j] == cs[m + j];
      }
      ItemsIndex(cs[m..], x);
    }
  }

  /** Taking the top `|undo| - m` commands' items out of a consistent scene leaves the base and the rest. */
  lemma UndoScene<S>(log: Log<S>, base: set<ItemId>, m: nat)
    requires Consistent(log, base) && m <= |log.undo|
    ensures log.scene - Items(log.undo[m..]) == base + Items(log.undo[..m])
  {
    var t := Timeline(log);
    var kept := log.undo[..m];
    var moved := log.undo[m..];
    SplitAppend(log.undo, Reverse(log.redo), m);
    DistinctSplit(t, m);
    ItemsAppend(moved, Reverse(log.redo));
    ItemsAppend(kept, moved);
    ItemsAppend(log.undo, Reverse(log.redo));
    assert Items(moved) !! Items(kept);
    assert Items(moved) !! base;
  }

  /** Undo keeps the log invariant. */
  lemma UndoConsistent<S>(log: Log<S>, base: set<ItemId>, levels: int)
    requires Consistent(log, base)
    ensures Consistent(Undo(log, levels), base)
  {
    var n := |log.undo|;
    var k := Moved(levels, n);
    var r := Undo(log, levels);
    UndoKeepsTimeline(log, levels);
    assert Timeline(r) == Timeline(log);
    UndoScene(log, base, n - k);
    assert r.scene == base + Items(r.undo);
  }

  /** Redo keeps the log invariant. */
  lemma RedoConsistent<S>(log: Log<S>, base: set<ItemId>, levels: int)
    requires Consistent(log, base)
    ensures Consistent(Redo(log, levels), base)
  {
    var n := |log.redo|;
    var k := Moved(levels, n);
    var r := Redo(log, levels);
    RedoKeepsTimeline(log, levels);
    ItemsAppend(log.undo, Reverse(log.redo[n - k..]));
    ItemsReverse(log.redo[n - k..]);
  }

  /** Recording a fresh item keeps the log invariant. */
  lemma InsertAddConsistent<S>(log: Log<S>, base: set<ItemId>, item: ItemId, shape: S)
    requires Consistent(log, base)
    requires item !in log.scene && item !in base
    ensures Consistent(InsertAdd(log, item, shape), base)
  {
    var r := InsertAdd(log, item, shape);
    ItemsAppend(log.undo, Reverse(log.redo));
    ItemsAppend(log.undo, [AddCommand(item, shape)]);
    var t := Timeline(log);
    var t' := Timeline(r);
    assert t' == log.undo + [AddCommand(item, shape)];
    ItemsIndex(log.undo, item);
    forall i, j | 0 <= i < j < |t'| ensures t'[i].item != t'[j].item {
      assert t'[i] == log.undo[i] == t[i];
      if j < |log.undo| { assert t'[j] == t[j]; }
    }
  }

  /** After `clear` the log owns nothing: the whole scene becomes the base. */
  lemma ClearConsistent<S>(log: Log<S>)
    ensures Consistent(Clear(log), log.scene)
  {
  }

  /** A call of `undo(levels)` or `redo(levels)`. */
  datatype Request = UndoRequest(levels: int) | RedoRequest(levels: int)

  /** The log after the requests, in order. */
  function Replay<S>(log: Log<S>, rs: seq<Request>): Log<S>
    decreases |rs|
  {
    if rs == [] then log
    else
      var next := match rs[0]
        case UndoRequest(n) => Undo(log, n)
        case RedoRequest(n) => Redo(log, n);
      Replay(next, rs[1..])
  }

  /**
   However undo and redo calls are interleaved, the recorded timeline stays the
   same and the scene holds the base plus exactly the first `|undo|` commands of
   it: what the scene would hold had only those commands ever been executed.
   */
  lemma {:induction false} SceneIsTimelinePrefix<S>(log: Log<S>, base: set<ItemId>, rs: seq<Request>)
    requires Consistent(log, base)
    ensures var r := Replay(log, rs);
      && Timeline(r) == Timeline(log)
      && Consistent(r, base)
      && r.scene == base + Items(Timeline(log)[..|r.undo|])
    decreases |rs|
  {
    if rs == [] {
      assert Timeline(log)[..|log.undo|] == log.undo;
    } else {
      match rs[0]
      case UndoRequest(n) =>
        UndoKeepsTimeline(log, n);
        UndoConsistent(log, base, n);
        SceneIsTimelinePrefix(Undo(log, n), base, rs[1..]);
      case RedoRequest(n) =>
        RedoKeepsTimeline(log, n);
        RedoConsistent(log, base, n);
        SceneIsTimelinePrefix(Redo(log, n), base, rs[1..]);
    }
  }

  /**
   The raw `insert_in_undo_redo` records an item the caller has already put in
   the scene: the log stays consistent once that item leaves the base.
   */
  lemma InsertConsistent<S>(log: Log<S>, base: set<ItemId>, c: Command<S>)
    requires Consistent(log, base)
    requires c.item in base
    ensures Consistent(Insert(log, c), base - {c.item})
  {
    var r := Insert(log, c);
    ItemsAppend(log.undo, Reverse(log.redo));
    ItemsAppend(log.undo, [c]);
    var t := Timeline(log);
    var t' := Timeline(r);
    assert t' == log.undo + [c];
    ItemsIndex(log.undo, c.item);
    forall i, j | 0 <= i < j < |t'| ensures t'[i].item != t'[j].item {
      assert t'[i] == log.undo[i] == t[i];
      if j < |log.undo| { assert t'[j] == t[j]; }
    }
  }

  /** Moving the top `k` commands to the redo stack and back restores both stacks. */
  lemma UndoneThenRedoneStacks<S>(log: Log<S>, k: nat, u: Log<S>, d: Log<S>)
    requires UndoneTop(log, k, u) && RedoneTop(u, k, d)
    ensures d.undo == log.undo && d.redo == log.redo
  {
    var moved := log.undo[|log.undo| - k..];
    AppendSlices(log.redo, Reverse(moved));
    ReverseReverse(moved);
    assert log.undo[..|log.undo| - k] + moved == log.undo;
  }

  /** Moving the top `k` commands to the redo stack and back restores the scene. */
  lemma UndoneThenRedoneScene<S>(log: Log<S>, k: nat, u: Log<S>, d: Log<S>)
    requires UndoneTop(log, k, u) && RedoneTop(u, k, d)
    requires Items(log.undo[|log.undo| - k..]) <= log.scene
    ensures d.scene == log.scene
  {
    var moved := log.undo[|log.undo| - k..];
    AppendSlices(log.redo, Reverse(moved));
    ItemsReverse(moved);
  }

  /** Moving the top `k` commands to the undo stack and back restores both stacks. */
  lemma RedoneThenUndoneStacks<S>(log: Log<S>, k: nat, d: Log<S>, u: Log<S>)
    requires RedoneTop(log, k, d) && UndoneTop(d, k, u)
    ensures u.undo == log.undo && u.redo == log.redo
  {
    var moved := log.redo[|log.redo| - k..];
    AppendSlices(log.undo, Reverse(moved));
    ReverseReverse(moved);
    assert log.redo[..|log.redo| - k] + moved == log.redo;
  }

  /** Moving the top `k` commands to the undo stack and back restores the scene. */
  lemma RedoneThenUndoneScene<S>(log: Log<S>, k: nat, d: Log<S>, u: Log<S>)
    requires RedoneTop(log, k, d) && UndoneTop(d, k, u)
    requires Items(log.redo[|log.redo| - k..]) !! log.scene
    ensures u.scene == log.scene
  {
    var moved := log.redo[|log.redo| - k..];
    AppendSlices(log.undo, Reverse(moved));
    ItemsReverse(moved);
  }

  /** `undo(k)` followed by `redo(k)` restores both stacks and the scene, when the `k` undone items are in the scene. */
  lemma UndoThenRedo<S>(log: Log<S>, k: nat)
    requires k <= |log.undo|
    requires Items(log.undo[|log.undo| - k..]) <= log.scene
    ensures Redo(Undo(log, k), k) == log
  {
    var u := Undo(log, k);
    assert Moved(k, |log.undo|) == k;
    assert Moved(k, |u.redo|) == k;
    var d := Redo(u, k);
    UndoneThenRedoneStacks(log, k, u, d);
    UndoneThenRedoneScene(log, k, u, d);
  }

  /** `redo(k)` followed by `undo(k)` restores both stacks and the scene, when the `k` redone items are off the scene. */
  lemma RedoThenUndo<S>(log: Log<S>, k: nat)
    requires k <= |log.redo|
    requires Items(log.redo[|log.redo| - k..]) !! log.scene
    ensures Undo(Redo(log, k), k) == log
  {
    var d := Redo(log, k);
    assert Moved(k, |log.redo|) == k;
    assert Moved(k, |d.undo|) == k;
    var u := Undo(d, k);
    RedoneThenUndoneStacks(log, k, d, u);
    RedoneThenUndoneScene(log, k, d, u);
  }

  /** Asking for more undo than recorded undoes everything and returns the scene to the base. */
  lemma UndoSaturates<S>(log: Log<S>, base: set<ItemId>, levels: int)
    requires Consistent(log, base)
    requires levels >= |log.undo|
    ensures Undo(log, levels).undo == []
    ensures Undo(log, levels).scene == base
  {
    assert log.undo[0..] == log.undo;
    ItemsAppend(log.undo, Reverse(log.redo));
  }

  /** Recording an item and undoing once restores the scene and the undo stack; redoing once re-records it. */
  lemma InsertAddThenUndo<S>(log: Log<S>, item: ItemId, shape: S)
    requires item !in log.scene
    ensures Undo(InsertAdd(log, item, shape), 1).scene == log.scene
    ensures Undo(InsertAdd(log, item, shape), 1).undo == log.undo
    ensures Redo(Undo(InsertAdd(log, item, shape), 1), 1) == InsertAdd(log, item, shape)
  {
    var a := InsertAdd(log, item, shape);
    var c := AddCommand(item, shape);
    assert a.undo[|a.undo| - 1..] == [c];
    assert Items([c]) == {item};
    assert Reverse([c]) == [c];
    var u := Undo(a, 1);
    assert u.redo == log.redo[..0] + [c];
    assert u.redo[|u.redo| - 1..] == [c];
  }

  /**
   Undoing a recorded command takes it back off, leaves only it to redo, and
   removes its item from the scene whether or not recording had added it.
   */
  lemma InsertThenUndo<S>(log: Log<S>, c: Command<S>)
    ensures Undo(Insert(log, c), 1) == Log(log.undo, [c], UnExecute(c, log.scene))
  {
    var a := Insert(log, c);
    assert a.undo[|a.undo| - 1..] == [c];
    assert Items([c]) == {c.item};
    assert Reverse([c]) == [c];
  }

  /**
   A new recording invalidates the redo lineage: after `undo(1)` and a new
   insertion, `redo(1)` changes nothing, so the undone item stays hidden.
   */
  lemma InsertDropsRedo<S>(log: Log<S>, item: ItemId, shape: S, levels: int)
    ensures var a := InsertAdd(Undo(log, 1), item, shape);
      Redo(a, levels) == a
  {
  }
}
