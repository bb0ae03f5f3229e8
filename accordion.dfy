/** The accordion controller: a click on a toggle finds the toggle's panel among
    its following siblings and flips the expanded state held, redundantly, by the
    toggle's aria-expanded attribute and by the panel's hidden flag and class. */
module Accordion {
  import opened Common

  const ToggleClass := "accordion-toggle"
  const PanelClass := "accordion-panel"
  const OpenClass := "panel-open"

  /** An element child of the accordion's parent, reduced to what the click
      handler reads or writes. */
  datatype Element = Element(
    classes: set<string>,          // its classList
    ariaExpanded: Option<string>,  // the aria-expanded attribute, None when absent
    hidden: bool,                  // whether the hidden attribute is present
    maxHeight: string)             // the inline max-height style, "" when cleared

  predicate IsPanel(e: Element) {
    PanelClass in e.classes
  }

  /** Only the exact attribute value "true" counts as expanded. */
  predicate IsOpen(e: Element) {
    e.ariaExpanded == Some("true")
  }

  /** The first panel at or after index i of the sibling sequence s. */
  function PanelFrom(s: seq<Element>, i: nat): (r: Option<nat>)
    decreases |s| - i
    ensures r.Some? ==> i <= r.value < |s| && IsPanel(s[r.value])
    ensures r.Some? ==> forall j :: i <= j < r.value ==> !IsPanel(s[j])
    ensures r.None? <==> forall j :: i <= j < |s| ==> !IsPanel(s[j])
  {
    if i >= |s| then None
    else if IsPanel(s[i]) then Some(i)
    else PanelFrom(s, i + 1)
  }

  /** The panel the toggle at index t acts on: the first panel after it. */
  function PanelOf(s: seq<Element>, t: nat): Option<nat> {
    PanelFrom(s, t + 1)
  }

  /** The siblings after the toggle at t and its panel at k are set to the
      expanded state `open`; the inline height is cleared in both directions. */
  function SetExpanded(s: seq<Element>, t: nat, k: nat, open: bool): seq<Element>
    requires t < |s| && k < |s|
  {
    var btn := s[t].(ariaExpanded := Some(if open then "true" else "false"));
    var panel := s[k].(hidden := !open, maxHeight := "",
                       classes := if open then s[k].classes + {OpenClass} else s[k].classes - {OpenClass});
    s[t := btn][k := panel]
  }

  /** The siblings after one click on the toggle at index t. */
  function Toggled(s: seq<Element>, t: nat): seq<Element>
    requires t < |s|
  {
    match PanelOf(s, t)
    case None => s
    case Some(k) => SetExpanded(s, t, k, !IsOpen(s[t]))
  }

  /** The three parts of the expanded state agree and the attribute holds one
      of the two values the handler writes. */
  predicate Consistent(s: seq<Element>, t: nat)
    requires t < |s|
  {
    match PanelOf(s, t)
    case None => true
    case Some(k) =>
      (s[t].ariaExpanded == Some("true") || s[t].ariaExpanded == Some("false")) &&
      (IsOpen(s[t]) <==> !s[k].hidden) &&
      (IsOpen(s[t]) <==> OpenClass in s[k].classes)
  }

  /** The forward scan over the toggle's following siblings. */
  method FindPanel(s: seq<Element>, t: nat) returns (found: Option<nat>)
    requires t < |s|
    ensures found == PanelOf(s, t)
    ensures found.Some? ==> t < found.value < |s| && IsPanel(s[found.value])
    ensures found.Some? ==> forall j :: t < j < found.value ==> !IsPanel(s[j])
    ensures found.None? ==> forall j :: t < j < |s| ==> !IsPanel(s[j])
  {
    var i := t + 1;
    while i < |s| && !IsPanel(s[i])
      invariant t < i <= |s|
      invariant forall j :: t < j < i ==> !IsPanel(s[j])
    {
      i := i + 1;
    }
    found := if i < |s| then Some(i) else None;
  }

  /** The scan gives the same answer on two sibling sequences that agree,
      from index i on, on which elements are panels. */
  lemma {:induction false} PanelFromStable(s: seq<Element>, s': seq<Element>, i: nat)
    requires |s| == |s'|
    requires forall j :: i <= j < |s| ==> (IsPanel(s[j]) <==> IsPanel(s'[j]))
    ensures PanelFrom(s, i) == PanelFrom(s', i)
    decreases |s| - i
  {
    if i < |s| && !IsPanel(s[i]) {
      PanelFromStable(s, s', i + 1);
    }
  }

  /** Changing the expanded state keeps the toggle's panel where it was. */
  lemma SetExpandedKeepsPanel(s: seq<Element>, t: nat, k: nat, open: bool)
    requires t < |s| && PanelOf(s, t) == Some(k)
    ensures PanelOf(SetExpanded(s, t, k, open), t) == Some(k)
  {
    var r := SetExpanded(s, t, k, open);
    assert IsPanel(r[k]);
    PanelFromStable(s, r, t + 1);
  }

  /** Flip: an expanded toggle ("true") becomes "false"; any other value,
      absent included, becomes "true". */
  lemma FlipsAttribute(s: seq<Element>, t: nat)
    requires t < |s| && PanelOf(s, t).Some?
    ensures Toggled(s, t)[t].ariaExpanded ==
            if s[t].ariaExpanded == Some("true") then Some("false") else Some("true")
    ensures IsOpen(Toggled(s, t)[t]) == !IsOpen(s[t])
  {
  }

  /** Without a panel after the toggle, a click changes nothing. */
  lemma NoPanelNoChange(s: seq<Element>, t: nat)
    requires t < |s| && forall j :: t < j < |s| ==> !IsPanel(s[j])
    ensures Toggled(s, t) == s
  {
  }

  /** After any click the attribute, the hidden flag and the class agree. */
  lemma ToggleLeavesConsistent(s: seq<Element>, t: nat)
    requires t < |s|
    ensures Consistent(Toggled(s, t), t)
    ensures PanelOf(Toggled(s, t), t) == PanelOf(s, t)
    ensures PanelOf(s, t).Some? ==> Toggled(s, t)[PanelOf(s, t).value].maxHeight == ""
  {
    match PanelOf(s, t)
    case None =>
    case Some(k) => SetExpandedKeepsPanel(s, t, k, !IsOpen(s[t]));
  }

  /** From a consistent state two clicks restore every sibling exactly, except
      that the panel's inline height stays cleared. */
  lemma ToggleTwiceRestores(s: seq<Element>, t: nat)
    requires t < |s| && Consistent(s, t)
    ensures PanelOf(s, t).None? ==> Toggled(Toggled(s, t), t) == s
    ensures PanelOf(s, t).Some? ==>
      Toggled(Toggled(s, t), t) == s[PanelOf(s, t).value := s[PanelOf(s, t).value].(maxHeight := "")]
  {
    match PanelOf(s, t)
    case None =>
    case Some(k) =>
      var open := IsOpen(s[t]);
      var r := SetExpanded(s, t, k, !open);
      SetExpandedKeepsPanel(s, t, k, !open);
      assert IsOpen(r[t]) == !open;
      var r2 := SetExpanded(r, t, k, open);
      assert r2[t] == s[t];
      assert r2[k].classes == s[k].classes;
      assert r2[k] == s[k].(maxHeight := "");
      assert r2 == s[k := s[k].(maxHeight := "")];
  }

  /** A click touches only the toggle and its one panel: every other sibling,
      other panels included, keeps its state (no exclusive opening). */
  lemma ToggleTouchesOnlyPair(s: seq<Element>, t: nat, j: nat)
    requires t < |s| && j < |s| && j != t && PanelOf(s, t) != Some(j)
    ensures |Toggled(s, t)| == |s|
    ensures Toggled(s, t)[j] == s[j]
  {
  }

  /** The children of one parent element: the click handler of every toggle
      among them updates this sequence in place. */
  class SiblingList {
    var elems: seq<Element>

    constructor (elems: seq<Element>)
      ensures this.elems == elems
    {
      this.elems := elems;
    }

    /** The click handler attached to the toggle at index t. */
    method Click(t: nat)
      requires t < |elems| && ToggleClass in elems[t].classes
      modifies this
      ensures elems == Toggled(old(elems), t)
    {
      var found := FindPanel(elems, t);
      if found.None? {
        return;
      }
      var k := found.value;
      var btn, panel := elems[t], elems[k];
      if IsOpen(btn) {
        btn := btn.(ariaExpanded := Some("false"));
        panel := panel.(hidden := true);
        panel := panel.(maxHeight := "");
        panel := panel.(classes := panel.classes - {OpenClass});
      } else {
        btn := btn.(ariaExpanded := Some("true"));
        panel := panel.(hidden := false);
        panel := panel.(maxHeight := "");
        panel := panel.(classes := panel.classes + {OpenClass});
      }
      elems := elems[t := btn][k := panel];
    }
  }
}
