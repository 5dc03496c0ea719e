/** A collapsable group of bar modules: when expanded (the initial state)
    every module it wraps is visible, when collapsed none is. */
module Group {

  /** A `bar.Output`; what it renders is not modelled. */
  datatype Output = Output(text: string)

  /** The mouse buttons a click event can carry (`bar.Button`). */
  datatype MouseButton =
    | ButtonLeft | ButtonRight | ButtonMiddle | ButtonBack | ButtonForward
    | ScrollUp | ScrollDown | ScrollLeft | ScrollRight

  /** A module added to a group. `original` identifies the wrapped
      `bar.Module`; the group switches `visible`. */
  class WrappedModule {
    const original: nat
    var visible: bool

    constructor (original: nat, visible: bool)
      ensures this.original == original && this.visible == visible
    {
      this.original := original;
      this.visible := visible;
    }

    method SetVisible(visible: bool)
      modifies this
      ensures this.visible == visible
    {
      this.visible := visible;
    }
  }

  /** The observable state of a group: whether it is collapsed and the
      visibility of each of its modules, in the order they were added. */
  datatype GroupState = GroupState(collapsed: bool, visible: seq<bool>)

  /** The group's invariant: every module is visible iff the group is expanded. */
  predicate Consistent(s: GroupState)
  {
    forall i :: 0 <= i < |s.visible| ==> s.visible[i] == !s.collapsed
  }

  /** `Add` on the abstract state: one more module, visible iff expanded. */
  function AfterAdd(s: GroupState): (t: GroupState)
    ensures t.collapsed == s.collapsed && |t.visible| == |s.visible| + 1
    ensures t.visible[..|s.visible|] == s.visible
    ensures t.visible[|s.visible|] == !s.collapsed
  {
    GroupState(s.collapsed, s.visible + [!s.collapsed])
  }

  /** `setCollapsed(c)` on the abstract state. */
  function AfterSetCollapsed(s: GroupState, c: bool): (t: GroupState)
    ensures t.collapsed == c && |t.visible| == |s.visible|
    ensures Consistent(t)
  {
    GroupState(c, seq(|s.visible|, _ => !c))
  }

  /** `Toggle` on the abstract state. */
  function AfterToggle(s: GroupState): (t: GroupState)
    ensures t.collapsed == !s.collapsed && |t.visible| == |s.visible|
    ensures Consistent(t)
  {
    AfterSetCollapsed(s, !s.collapsed)
  }

  /** Adding a module keeps a consistent group consistent. */
  lemma AddKeepsConsistent(s: GroupState)
    requires Consistent(s)
    ensures Consistent(AfterAdd(s))
  {
    var t := AfterAdd(s);
    forall i | 0 <= i < |t.visible|
      ensures t.visible[i] == !t.collapsed
    {
      if i < |s.visible| {
        assert t.visible[i] == t.visible[..|s.visible|][i];
      }
    }
  }

  /** On a consistent group, setting the flag it already has changes nothing;
      hence `Collapse` and `Expand` are idempotent. */
  lemma SetCollapsedUnchanged(s: GroupState)
    requires Consistent(s)
    ensures AfterSetCollapsed(s, s.collapsed) == s
  {
    var t := AfterSetCollapsed(s, s.collapsed);
    assert t.visible == s.visible by {
      forall i | 0 <= i < |s.visible|
        ensures t.visible[i] == s.visible[i]
      {
      }
    }
  }

  lemma SetCollapsedIdempotent(s: GroupState, c: bool)
    ensures AfterSetCollapsed(AfterSetCollapsed(s, c), c) == AfterSetCollapsed(s, c)
  {
    SetCollapsedUnchanged(AfterSetCollapsed(s, c));
  }

  /** Toggling a consistent group twice restores it. */
  lemma ToggleTwice(s: GroupState)
    requires Consistent(s)
    ensures AfterToggle(AfterToggle(s)) == s
  {
    var t := AfterToggle(AfterToggle(s));
    assert t.collapsed == s.collapsed;
    SetCollapsedUnchanged(s);
  }

  /** The visibility of each module in `ms`, in order. */
  ghost function Visibilities(ms: seq<WrappedModule>): (v: seq<bool>)
    reads ms
    ensures |v| == |ms|
    ensures forall i :: 0 <= i < |ms| ==> v[i] == ms[i].visible
  {
    if ms == [] then [] else Visibilities(ms[..|ms| - 1]) + [ms[|ms| - 1].visible]
  }

  /** `collapsable`: the modules of the group and its collapsed flag. */
  class Collapsable {
    var modules: seq<WrappedModule>
    var collapsed: bool

    ghost function State(): GroupState
      reads this, modules
    {
      GroupState(collapsed, Visibilities(modules))
    }

    ghost predicate Valid()
      reads this, modules
    {
      Consistent(State())
    }

    /** `Collapsing()`: an expanded group without modules. */
    constructor Collapsing()
      ensures modules == [] && !collapsed
      ensures Valid()
    {
      modules := [];
      collapsed := false;
    }

    /** `Add` wraps `original` in a new module, visible iff the group is
        expanded, and appends it. */
    method Add(original: nat) returns (m: WrappedModule)
      modifies this
      ensures fresh(m) && m.original == original
      ensures modules == old(modules) + [m] && collapsed == old(collapsed)
      ensures m.visible == !collapsed
      ensures State() == AfterAdd(old(State()))
      ensures old(Valid()) ==> Valid()
    {
      m := new WrappedModule(original, !collapsed);
      ghost var before := State();
      modules := modules + [m];
      assert modules[..|modules| - 1] == old(modules);
      assert State().visible == before.visible + [m.visible];
      if old(Valid()) {
        AddKeepsConsistent(before);
      }
    }

    /** `Collapsed` reports the flag. */
    method Collapsed() returns (c: bool)
      ensures c == collapsed
    {
      c := collapsed;
    }

    /** `setCollapsed(c)` records `c` and makes every module visible iff `!c`. */
    method SetCollapsed(c: bool)
      modifies this, modules
      ensures modules == old(modules)
      ensures State() == AfterSetCollapsed(old(State()), c)
      ensures Valid()
    {
      collapsed := c;
      for i := 0 to |modules|
        invariant modules == old(modules) && collapsed == c
        invariant forall j :: 0 <= j < i ==> modules[j].visible == !c
      {
        modules[i].SetVisible(!collapsed);
      }
      assert State().visible == AfterSetCollapsed(old(State()), c).visible;
    }

    /** `Collapse` hides every module. */
    method Collapse()
      modifies this, modules
      ensures modules == old(modules)
      ensures State() == AfterSetCollapsed(old(State()), true)
      ensures Valid()
    {
      SetCollapsed(true);
    }

    /** `Expand` shows every module. */
    method Expand()
      modifies this, modules
      ensures modules == old(modules)
      ensures State() == AfterSetCollapsed(old(State()), false)
      ensures Valid()
    {
      SetCollapsed(false);
    }

    /** `Toggle` flips the group between collapsed and expanded. */
    method Toggle()
      modifies this, modules
      ensures modules == old(modules)
      ensures State() == AfterToggle(old(State()))
      ensures Valid()
    {
      var c := Collapsed();
      SetCollapsed(!c);
    }

    /** `Button` makes a button that shows `whenCollapsed` or `whenExpanded`
        for the group's current state and toggles the group on a left click. */
    method Button(whenCollapsed: Output, whenExpanded: Output) returns (b: ToggleButton)
      ensures fresh(b) && b.group == this
      ensures b.whenCollapsed == whenCollapsed && b.whenExpanded == whenExpanded
      ensures b.shown == (if collapsed then whenCollapsed else whenExpanded)
    {
      b := new ToggleButton(this, whenCollapsed, whenExpanded);
    }
  }

  /** The button returned by `Collapsable.Button`. */
  class ToggleButton {
    const group: Collapsable
    const whenCollapsed: Output
    const whenExpanded: Output
    /** The output the button currently displays. */
    var shown: Output

    constructor (group: Collapsable, whenCollapsed: Output, whenExpanded: Output)
      ensures this.group == group
      ensures this.whenCollapsed == whenCollapsed && this.whenExpanded == whenExpanded
      ensures shown == (if group.collapsed then whenCollapsed else whenExpanded)
    {
      this.group := group;
      this.whenCollapsed := whenCollapsed;
      this.whenExpanded := whenExpanded;
      shown := if group.collapsed then whenCollapsed else whenExpanded;
    }

    /** The click handler: a left click toggles the group and refreshes the
        output; any other button changes nothing. */
    method Click(button: MouseButton)
      modifies this, group, group.modules
      ensures group.modules == old(group.modules)
      ensures button == ButtonLeft ==> group.State() == AfterToggle(old(group.State()))
      ensures button == ButtonLeft ==>
        shown == (if group.collapsed then whenCollapsed else whenExpanded)
      ensures button != ButtonLeft ==>
        group.State() == old(group.State()) && shown == old(shown)
    {
      if button == ButtonLeft {
        group.Toggle();
        var c := group.Collapsed();
        shown := if c then whenCollapsed else whenExpanded;
      }
    }
  }
}
