/** The frame-change dispatcher: one shared handler object holds a list of
    callbacks without repeats and a flag saying whether its dispatch function
    sits in Blender's frame_change_post hook list. Callbacks are identified by
    a number; what they do when called is outside the model, except whether
    they raise. */
module FrameHandling {

  type Callback = nat

  /** An entry of Blender's frame_change_post list: our dispatcher or someone else's. */
  datatype Hook = OnFrameChange | OtherHook(id: nat)

  predicate NoDuplicates<T(==)>(s: seq<T>)
  {
    forall i, j :: 0 <= i < j < |s| ==> s[i] != s[j]
  }

  /** list.remove(x) for an x that is present: the first occurrence goes. */
  function RemoveFirst<T(==)>(s: seq<T>, x: T): (r: seq<T>)
    requires x in s
    ensures |r| == |s| - 1
  {
    if s[0] == x then s[1..] else [s[0]] + RemoveFirst(s[1..], x)
  }

  /** list.index(x): the position of the first occurrence. */
  function IndexOf<T(==)>(s: seq<T>, x: T): (i: nat)
    requires x in s
    ensures i < |s| && s[i] == x && x !in s[..i]
  {
    if s[0] == x then 0
    else
      var j := IndexOf(s[1..], x);
      assert s[..j + 1] == [s[0]] + s[1..][..j];
      j + 1
  }

  /** RemoveFirst cuts the sequence at the first occurrence of x and keeps
      the rest in order. */
  lemma {:induction false} RemoveFirstSpec<T>(s: seq<T>, x: T)
    requires x in s
    ensures RemoveFirst(s, x) == s[..IndexOf(s, x)] + s[IndexOf(s, x) + 1..]
  {
    if s[0] != x {
      RemoveFirstSpec(s[1..], x);
      var j := IndexOf(s[1..], x);
      assert s[..j + 1] == [s[0]] + s[1..][..j];
      assert s[j + 2..] == s[1..][j + 1..];
    }
  }

  /** Without repeats, removing x takes out x and nothing else, and no repeats appear. */
  lemma RemoveFirstNoDuplicates<T>(s: seq<T>, x: T)
    requires x in s && NoDuplicates(s)
    ensures var r := RemoveFirst(s, x);
      && NoDuplicates(r) && x !in r
      && forall y :: y != x ==> (y in r <==> y in s)
  {
    RemoveFirstSpec(s, x);
    var i := IndexOf(s, x);
    var r := RemoveFirst(s, x);
    assert forall k :: 0 <= k < |r| ==> r[k] == if k < i then s[k] else s[k + 1];
    forall y | y != x ensures y in r <==> y in s {
      if y in s {
        var k :| 0 <= k < |s| && s[k] == y;
        assert r[if k < i then k else k - 1] == y;
      }
    }
  }

  /** add_callback on the list. */
  function Added(s: seq<Callback>, cb: Callback): (r: seq<Callback>)
  {
    if cb in s then s else s + [cb]
  }

  /** add_callback keeps the list free of repeats, puts cb in it, is idempotent,
      and appends at the end when cb is new. */
  lemma AddedSpec(s: seq<Callback>, cb: Callback)
    requires NoDuplicates(s)
    ensures var r := Added(s, cb);
      && NoDuplicates(r) && cb in r
      && Added(r, cb) == r
      && (cb !in s ==> r == s + [cb])
      && forall y :: y in r <==> y in s || y == cb
  {
  }

  /** remove_callback on the list. */
  function Removed(s: seq<Callback>, cb: Callback): (r: seq<Callback>)
  {
    if cb in s then RemoveFirst(s, cb) else s
  }

  /** remove_callback takes out cb only, keeps the others in order, and is a
      no-op when cb is absent. */
  lemma RemovedSpec(s: seq<Callback>, cb: Callback)
    requires NoDuplicates(s)
    ensures var r := Removed(s, cb);
      && NoDuplicates(r) && cb !in r
      && (cb !in s ==> r == s)
      && (forall y :: y != cb ==> (y in r <==> y in s))
      && (cb in s ==> r == s[..IndexOf(s, cb)] + s[IndexOf(s, cb) + 1..])
  {
    if cb in s {
      RemoveFirstNoDuplicates(s, cb);
      RemoveFirstSpec(s, cb);
    }
  }

  /** Blender's frame_change_post list. */
  class HookList {
    var hooks: seq<Hook>

    constructor(hooks0: seq<Hook>)
      ensures hooks == hooks0
    {
      hooks := hooks0;
    }
  }

  /** The shared handler: its callbacks and the registered flag. */
  class FrameHandler {
    var callbacks: seq<Callback>
    var isRegistered: bool

    ghost predicate Valid()
      reads this
    {
      NoDuplicates(callbacks)
    }

    /** The state __new__ gives the first instance. */
    constructor()
      ensures callbacks == [] && !isRegistered && Valid()
    {
      callbacks := [];
      isRegistered := false;
    }

    /** register_handler: append the dispatcher once and set the flag. */
    method RegisterHandler(blender: HookList)
      modifies this, blender
      ensures callbacks == old(callbacks)
      ensures old(isRegistered) ==> isRegistered && blender.hooks == old(blender.hooks)
      ensures !old(isRegistered) ==> isRegistered && blender.hooks == old(blender.hooks) + [OnFrameChange]
    {
      if !isRegistered {
        blender.hooks := blender.hooks + [OnFrameChange];
        isRegistered := true;
      }
    }

    /** unregister_handler: remove the dispatcher and clear the flag. When the
        dispatcher is no longer in the list, list.remove raises ValueError,
        which is swallowed before the flag is cleared: the flag stays set. */
    method UnregisterHandler(blender: HookList)
      modifies this, blender
      ensures callbacks == old(callbacks)
      ensures !old(isRegistered) ==> !isRegistered && blender.hooks == old(blender.hooks)
      ensures old(isRegistered) && OnFrameChange in old(blender.hooks) ==>
        !isRegistered && blender.hooks == RemoveFirst(old(blender.hooks), OnFrameChange)
      ensures old(isRegistered) && OnFrameChange !in old(blender.hooks) ==>
        isRegistered && blender.hooks == old(blender.hooks)
    {
      if isRegistered {
        if OnFrameChange in blender.hooks {
          blender.hooks := RemoveFirst(blender.hooks, OnFrameChange);
          isRegistered := false;
        }
      }
    }

    /** add_callback. */
    method AddCallback(cb: Callback)
      requires Valid()
      modifies this
      ensures Valid() && isRegistered == old(isRegistered)
      ensures callbacks == Added(old(callbacks), cb)
    {
      AddedSpec(callbacks, cb);
      if cb !in callbacks {
        callbacks := callbacks + [cb];
      }
    }

    /** remove_callback. */
    method RemoveCallback(cb: Callback)
      requires Valid()
      modifies this
      ensures Valid() && isRegistered == old(isRegistered)
      ensures callbacks == Removed(old(callbacks), cb)
    {
      RemovedSpec(callbacks, cb);
      if cb in callbacks {
        callbacks := RemoveFirst(callbacks, cb);
      }
    }
  }

  /** The callbacks that raise, in list order: each is reported and the loop goes on. */
  function Failing(cbs: seq<Callback>, raises: Callback -> bool): (r: seq<Callback>)
    ensures forall y :: y in r <==> y in cbs && raises(y)
  {
    if cbs == [] then []
    else (if raises(cbs[0]) then [cbs[0]] else []) + Failing(cbs[1..], raises)
  }

  /** The class attribute FrameHandler._instance. */
  class FrameHandlerClass {
    var instance: FrameHandler?

    constructor()
      ensures instance == null
    {
      instance := null;
    }

    /** FrameHandler(): the first call creates and initialises the instance;
        later calls return that same instance untouched. */
    method New() returns (h: FrameHandler)
      modifies this
      ensures old(instance) != null ==> h == old(instance) && instance == h
      ensures old(instance) == null ==> fresh(h) && instance == h && h.callbacks == [] && !h.isRegistered
    {
      if instance == null {
        instance := new FrameHandler();
      }
      h := instance;
    }

    /** _on_frame_change: call every callback in list order; one that raises
        is reported and the loop goes on. Nothing happens without an instance.
        Returns the callbacks called and those that raised. */
    method OnFrameChange(raises: Callback -> bool) returns (called: seq<Callback>, failed: seq<Callback>)
      ensures instance == null ==> called == [] && failed == []
      ensures instance != null ==> called == instance.callbacks && failed == Failing(instance.callbacks, raises)
    {
      called, failed := [], [];
      if instance == null {
        return;
      }
      var cbs := instance.callbacks;
      for i := 0 to |cbs|
        invariant called == cbs[..i]
        invariant failed == Failing(cbs[..i], raises)
      {
        FailingAppend(cbs[..i], cbs[i], raises);
        assert cbs[..i + 1] == cbs[..i] + [cbs[i]];
        called := called + [cbs[i]];
        if raises(cbs[i]) {
          failed := failed + [cbs[i]];
        }
      }
      assert cbs[..|cbs|] == cbs;
    }
  }

  lemma {:induction false} FailingAppend(cbs: seq<Callback>, cb: Callback, raises: Callback -> bool)
    ensures Failing(cbs + [cb], raises) == Failing(cbs, raises) + (if raises(cb) then [cb] else [])
    decreases |cbs|
  {
    if cbs == [] {
      assert [cb][1..] == [];
    } else {
      FailingAppend(cbs[1..], cb, raises);
      assert (cbs + [cb])[1..] == cbs[1..] + [cb];
    }
  }

  /** Two constructions in a row give the same object, and the second leaves
      its state alone. */
  method SingletonTwice(cls: FrameHandlerClass) returns (h1: FrameHandler, h2: FrameHandler)
    modifies cls
    ensures h1 == h2
    ensures old(cls.instance) == null ==> h2.callbacks == [] && !h2.isRegistered
  {
    h1 := cls.New();
    h2 := cls.New();
  }
}
