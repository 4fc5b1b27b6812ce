/**
 * The radio group (src/radio/RadioGroup.tsx): the rule by which the group
 * injects `checked`, `disabled` and `onChange` into its child radios, the
 * normalisation of `options` into radios, and the variant-dependent choices.
 *
 * The group's current value (`internalValue`, held by `useDefault`) and its
 * `disabled` prop are inputs; a handler is data, and firing one yields the
 * ordered list of effects it has.
 */
module RadioGroup {
  import opened Wrappers

  /** A JavaScript primitive as it may appear as a radio value or label. */
  datatype Scalar = Str(s: string) | Num(n: real) | Bool(b: bool) | Undefined | Null

  /** Truthiness of an optional boolean prop (`undefined` is falsy). */
  predicate Truthy(b: Option<bool>)
  {
    b == Some(true)
  }

  /** `a || b` on two optional boolean props: the first when truthy, else the second. */
  function Or(a: Option<bool>, b: Option<bool>): (r: Option<bool>)
    ensures Truthy(r) <==> Truthy(a) || Truthy(b)
    ensures !Truthy(a) ==> r == b
  {
    if Truthy(a) then a else b
  }

  /** An `onChange` prop. `Injected` is the handler `inject` builds around a child's own one. */
  datatype Handler =
    | NotFunction
    | ChildHandler(id: nat)
    | Injected(own: Handler, checkValue: Scalar)

  /** What firing a handler does, in order. `e` identifies the DOM event. */
  datatype Effect =
    | CallChild(id: nat, checked: bool, e: nat)
    | SetInternalValue(value: Scalar, e: nat)

  /** `handler(checked, { e })`. */
  function Fire(h: Handler, checked: bool, e: nat): (effects: seq<Effect>)
    ensures h.Injected? ==> |effects| > 0 && effects[|effects| - 1] == SetInternalValue(h.checkValue, e)
    ensures h.NotFunction? ==> effects == []
  {
    match h
    case NotFunction => []
    case ChildHandler(id) => [CallChild(id, checked, e)]
    case Injected(own, v) => Fire(own, checked, e) + [SetInternalValue(v, e)]
  }

  /**
   * The `checked` prop: absent, `null`, or a boolean. Only an absent one
   * (`typeof checked === 'undefined'`) leaves the radio uncontrolled.
   */
  datatype Checked = Unset | CheckedNull | CheckedIs(b: bool)

  /** The props a child radio hands to `inject`; `others` are the props the spread carries along. */
  datatype CheckProps = CheckProps(checked: Checked, value: Scalar, disabled: Option<bool>,
                                   onChange: Handler, others: map<string, Scalar>)

  /** What `inject` reads from the group. */
  datatype GroupState = GroupState(internalValue: Scalar, disabled: Option<bool>)

  /** `context.inject(checkProps)`. */
  function Inject(g: GroupState, p: CheckProps): (q: CheckProps)
    ensures !p.checked.Unset? ==> q == p
    ensures q.value == p.value && q.others == p.others
    ensures p.checked.Unset? ==> q.checked == CheckedIs(g.internalValue == p.value)
  {
    if !p.checked.Unset? then p
    else
      p.(checked := CheckedIs(g.internalValue == p.value),
         disabled := Or(p.disabled, g.disabled),
         onChange := Injected(p.onChange, p.value))
  }

  /**
   * An uncontrolled child is disabled exactly when it or the group is; in
   * particular a disabled group disables every uncontrolled child.
   */
  lemma InjectDisabled(g: GroupState, p: CheckProps)
    requires p.checked.Unset?
    ensures Truthy(Inject(g, p).disabled) <==> Truthy(p.disabled) || Truthy(g.disabled)
    ensures Truthy(g.disabled) ==> Truthy(Inject(g, p).disabled)
    ensures !Truthy(p.disabled) ==> Inject(g, p).disabled == g.disabled
  {
  }

  /**
   * The injected `onChange` runs the child's own handler, when it is a
   * function, and then sets the group value to the child's value.
   */
  lemma InjectedChange(g: GroupState, p: CheckProps, checked: bool, e: nat)
    requires p.checked.Unset?
    ensures Fire(Inject(g, p).onChange, checked, e) ==
              Fire(p.onChange, checked, e) + [SetInternalValue(p.value, e)]
    ensures p.onChange.ChildHandler? ==>
              Fire(Inject(g, p).onChange, checked, e) == [CallChild(p.onChange.id, checked, e), SetInternalValue(p.value, e)]
    ensures p.onChange.NotFunction? ==>
              Fire(Inject(g, p).onChange, checked, e) == [SetInternalValue(p.value, e)]
  {
  }

  /** Child `i` is uncontrolled and the group checks it. */
  predicate CheckedByGroup(g: GroupState, children: seq<CheckProps>, i: int)
  {
    0 <= i < |children| && children[i].checked.Unset? && Inject(g, children[i]).checked == CheckedIs(true)
  }

  /** The number of uncontrolled children the group checks. */
  function CheckedCount(g: GroupState, children: seq<CheckProps>): nat
  {
    if children == [] then 0
    else (if CheckedByGroup(g, children, 0) then 1 else 0) + CheckedCount(g, children[1..])
  }

  /** The uncontrolled children carry pairwise distinct values. */
  predicate DistinctUncontrolled(children: seq<CheckProps>)
  {
    forall i, j :: 0 <= i < j < |children| && children[i].checked.Unset? && children[j].checked.Unset? ==>
      children[i].value != children[j].value
  }

  /**
   * Among uncontrolled children with distinct values at most one is checked,
   * and one is exactly when one of them carries the group's value.
   */
  lemma {:induction false} AtMostOneChecked(g: GroupState, children: seq<CheckProps>)
    requires DistinctUncontrolled(children)
    ensures CheckedCount(g, children) <= 1
    ensures CheckedCount(g, children) == 1 <==>
              exists i :: 0 <= i < |children| && children[i].checked.Unset? && children[i].value == g.internalValue
  {
    if children != [] {
      var rest := children[1..];
      assert DistinctUncontrolled(rest) by {
        forall i, j | 0 <= i < j < |rest| && rest[i].checked.Unset? && rest[j].checked.Unset?
          ensures rest[i].value != rest[j].value
        {
          assert rest[i] == children[i + 1] && rest[j] == children[j + 1];
        }
      }
      AtMostOneChecked(g, rest);
      if exists i :: 0 <= i < |rest| && rest[i].checked.Unset? && rest[i].value == g.internalValue {
        var i :| 0 <= i < |rest| && rest[i].checked.Unset? && rest[i].value == g.internalValue;
        assert children[i + 1] == rest[i];
        if children[0].checked.Unset? {
          assert children[0].value != children[i + 1].value;
        }
      }
      if exists i :: 0 <= i < |children| && children[i].checked.Unset? && children[i].value == g.internalValue {
        var i :| 0 <= i < |children| && children[i].checked.Unset? && children[i].value == g.internalValue;
        if i > 0 {
          assert rest[i - 1] == children[i];
        }
      }
    }
  }

  // ---------------------------------------------------------------------------
  // renderOptions
  // ---------------------------------------------------------------------------

  /** An element of `options`: a string, a number, or an object. */
  datatype RadioOption =
    | OptionStr(s: string)
    | OptionNum(n: real)
    | OptionObject(value: Scalar, text: Scalar, disabled: Option<bool>)

  /** A rendered `<Radio value key disabled>{label}</Radio>`. */
  datatype RadioElem = RadioElem(value: Scalar, key: Scalar, text: Scalar, disabled: Option<bool>)

  function RenderOption(item: RadioOption): (r: RadioElem)
    ensures r.key == r.value
    ensures item.OptionStr? ==> r.value == r.text == Str(item.s) && r.disabled.None?
    ensures item.OptionNum? ==> r.value == r.text == Num(item.n) && r.disabled.None?
    ensures item.OptionObject? ==> r.value == item.value && r.text == item.text && r.disabled == item.disabled
  {
    match item
    case OptionStr(s) => RadioElem(Str(s), Str(s), Str(s), None)
    case OptionNum(n) => RadioElem(Num(n), Num(n), Num(n), None)
    case OptionObject(v, l, d) => RadioElem(v, v, l, d)
  }

  /** `renderOptions()`: `options.map(...)`. */
  function RenderOptions(options: seq<RadioOption>): (r: seq<RadioElem>)
    ensures |r| == |options|
    ensures forall i :: 0 <= i < |options| ==> r[i] == RenderOption(options[i])
  {
    if options == [] then [] else [RenderOption(options[0])] + RenderOptions(options[1..])
  }

  /** The group's children: what was given when truthy, else the rendered options. */
  datatype Children<N> = Falsy | Given(nodes: N)

  datatype Body<N> = FromChildren(nodes: N) | FromOptions(radios: seq<RadioElem>)

  /** `children || renderOptions()`, with `options` defaulting to `[]`. */
  function Content<N>(children: Children<N>, options: Option<seq<RadioOption>>): (b: Body<N>)
    ensures children.Given? ==> b == FromChildren(children.nodes)
    ensures children.Falsy? && options.None? ==> b == FromOptions([])
    ensures children.Falsy? && options.Some? ==>
              b.FromOptions? && |b.radios| == |options.value| &&
              forall i :: 0 <= i < |options.value| ==> b.radios[i] == RenderOption(options.value[i])
  {
    match children
    case Given(nodes) => FromChildren(nodes)
    case Falsy => FromOptions(RenderOptions(if options.Some? then options.value else []))
  }

  // ---------------------------------------------------------------------------
  // Variants
  // ---------------------------------------------------------------------------

  /** `t` occurs in `s` starting at index `i`. */
  predicate OccursAt(s: string, t: string, i: int)
  {
    0 <= i && i + |t| <= |s| && s[i..i + |t|] == t
  }

  /** `s.includes(t)`. */
  function Includes(s: string, t: string): (b: bool)
    ensures b <==> exists i :: OccursAt(s, t, i)
    decreases |s|
  {
    if |t| > |s| then false
    else if s[..|t|] == t then assert OccursAt(s, t, 0); true
    else
      var r := Includes(s[1..], t);
      assert r ==> exists i :: OccursAt(s, t, i) by {
        if r {
          var i :| OccursAt(s[1..], t, i);
          assert s[1..][i..i + |t|] == s[i + 1..i + 1 + |t|];
          assert OccursAt(s, t, i + 1);
        }
      }
      assert (exists i :: OccursAt(s, t, i)) ==> r by {
        if exists i :: OccursAt(s, t, i) {
          var i :| OccursAt(s, t, i);
          assert i > 0;
          assert s[1..][i - 1..i - 1 + |t|] == s[i..i + |t|];
          assert OccursAt(s[1..], t, i - 1);
        }
      }
      r
  }

  /** The class flags of the group's `div`, for `variant` (default `'outline'`). */
  datatype GroupClasses = GroupClasses(outline: bool, filled: bool, primaryFilled: bool)

  function VariantOf(variant: Option<string>): string
  {
    if variant.Some? then variant.value else "outline"
  }

  function Classes(variant: Option<string>): (c: GroupClasses)
    ensures c.outline <==> VariantOf(variant) == "outline"
    ensures c.primaryFilled <==> VariantOf(variant) == "primary-filled"
    ensures c.filled <==> exists i :: OccursAt(VariantOf(variant), "filled", i)
  {
    var v := VariantOf(variant);
    GroupClasses(v == "outline", Includes(v, "filled"), v == "primary-filled")
  }

  /** `renderBlock()`: the background block exists only for a variant containing `'filled'`. */
  function HasBlock(variant: Option<string>): (b: bool)
    ensures b <==> exists i :: OccursAt(VariantOf(variant), "filled", i)
    ensures b <==> Classes(variant).filled
  {
    Includes(VariantOf(variant), "filled")
  }

  /**
   * The default `'outline'` variant gets no background block, while
   * `'default-filled'` and `'primary-filled'` both do.
   */
  lemma VariantBlocks()
    ensures !HasBlock(None) && Classes(None) == GroupClasses(true, false, false)
    ensures HasBlock(Some("default-filled")) && Classes(Some("default-filled")) == GroupClasses(false, true, false)
    ensures HasBlock(Some("primary-filled")) && Classes(Some("primary-filled")) == GroupClasses(false, true, true)
  {
    assert OccursAt("default-filled", "filled", 8);
    assert OccursAt("primary-filled", "filled", 8);
    var o := "outline";
    forall i | 0 <= i <= 1 ensures !OccursAt(o, "filled", i) {
      assert o[i..i + 6][0] == o[i];
    }
  }
}
