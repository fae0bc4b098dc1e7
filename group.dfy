/**
 * The radio and checkbox group stores: each holds one mutable value (the
 * selected value of a radio group, the array of selected values of a checkbox
 * group) that `toggle`, `select`, `deselect`, `set` and `update` replace and
 * `isSelected` peeks at. Values are compared with JavaScript's `===`, modelled
 * as Dafny equality.
 */
module GroupStores {
  import opened Wrappers

  // ---------------------------------------------------------------------------
  // Radio group
  // ---------------------------------------------------------------------------

  /** The radio `toggle` updater: clicking the selected value clears it, any other value becomes selected. */
  function RadioToggled<T(==)>(current: Option<T>, v: T): (r: Option<T>)
    ensures r == Some(v) <==> current != Some(v)
    ensures r == None <==> current == Some(v)
  {
    if current == Some(v) then None else Some(v)
  }

  /** Toggling the same value twice selects it when it was selected and clears the group otherwise. */
  lemma RadioToggleTwice<T>(current: Option<T>, v: T)
    ensures RadioToggled(RadioToggled(current, v), v) == if current == Some(v) then Some(v) else None
  {
  }

  /** `createRadioGroup`: a store whose value is the selected value, or `undefined`. */
  class RadioGroup<T(==)> {
    var value: Option<T>

    /** `createRadioGroup(initialValue?)`. */
    constructor (initialValue: Option<T>)
      ensures value == initialValue
    {
      value := initialValue;
    }

    /** `isSelected(v)`: a synchronous peek that leaves the value alone. */
    method IsSelected(v: T) returns (b: bool)
      ensures b <==> value == Some(v)
    {
      b := value == Some(v);
    }

    method Toggle(v: T)
      modifies this
      ensures value == RadioToggled(old(value), v)
    {
      value := RadioToggled(value, v);
    }

    /** `select(v)`: sets the value whatever it was. */
    method Select(v: T)
      modifies this
      ensures value == Some(v)
    {
      value := Some(v);
    }

    /** `deselect(v)`: clears the value whatever the argument. */
    method Deselect(v: T)
      modifies this
      ensures value == None
    {
      value := None;
    }

    /** The store's own `set`. */
    method Set(newValue: Option<T>)
      modifies this
      ensures value == newValue
    {
      value := newValue;
    }

    /** The store's own `update`, with a total updater. */
    method Update(updater: Option<T> -> Option<T>)
      modifies this
      ensures value == updater(old(value))
    {
      value := updater(value);
    }
  }

  // ---------------------------------------------------------------------------
  // Checkbox group
  // ---------------------------------------------------------------------------

  /** `arr.indexOf(v)`: the first index holding `v`, or -1. */
  function IndexOf<T(==)>(s: seq<T>, v: T): (i: int)
    ensures -1 <= i < |s|
    ensures i == -1 <==> v !in s
    ensures i >= 0 ==> s[i] == v && v !in s[..i]
  {
    if s == [] then -1
    else if s[0] == v then 0
    else
      var k := IndexOf(s[1..], v);
      assert k >= 0 ==> s[1..][..k] == s[1..k + 1];
      if k == -1 then -1 else k + 1
  }

  /**
   * The checkbox `toggle` updater: when `v` is present only its first
   * occurrence is filtered out (by index), otherwise `v` is appended.
   */
  function CheckboxToggled<T(==)>(s: seq<T>, v: T): (r: seq<T>)
    ensures v !in s ==> r == s + [v]
    ensures v in s ==> exists i :: 0 <= i < |s| && s[i] == v && v !in s[..i] && r == s[..i] + s[i + 1..]
  {
    var index := IndexOf(s, v);
    if index >= 0 then s[..index] + s[index + 1..] else s + [v]
  }

  /** Toggling removes exactly one copy of a present value and nothing else. */
  lemma ToggleRemovesOne<T>(s: seq<T>, v: T)
    requires v in s
    ensures |CheckboxToggled(s, v)| == |s| - 1
    ensures multiset(CheckboxToggled(s, v)) == multiset(s) - multiset{v}
  {
    var i := IndexOf(s, v);
    assert s == s[..i] + [s[i]] + s[i + 1..];
  }

  /** Toggling an absent value twice restores the original array. */
  lemma ToggleTwiceAbsent<T>(s: seq<T>, v: T)
    requires v !in s
    ensures CheckboxToggled(CheckboxToggled(s, v), v) == s
  {
    var t := s + [v];
    assert t[..|s|] == s;
    assert IndexOf(t, v) == |s|;
    assert t[..|s|] + t[|s| + 1..] == s;
  }

  /** The checkbox `select` updater: appends `v` only when it is absent. */
  function WithSelected<T(==)>(s: seq<T>, v: T): (r: seq<T>)
    ensures v in r
    ensures multiset(r)[v] == if v in s then multiset(s)[v] else 1
    ensures multiset(r)[v := 0] == multiset(s)[v := 0]
    ensures s <= r
  {
    if v !in s then s + [v] else s
  }

  /** Selecting twice is selecting once. */
  lemma SelectIdempotent<T>(s: seq<T>, v: T)
    ensures WithSelected(WithSelected(s, v), v) == WithSelected(s, v)
  {
  }

  /** The checkbox `deselect` updater: `arr.filter(item => item !== v)`. */
  function Without<T(==)>(s: seq<T>, v: T): (r: seq<T>)
    ensures v !in r
    ensures multiset(r) == multiset(s)[v := 0]
  {
    if s == [] then []
    else
      var rest := Without(s[1..], v);
      assert s == [s[0]] + s[1..];
      assert multiset(s) == multiset{s[0]} + multiset(s[1..]);
      if s[0] == v then
        assert multiset(s)[v := 0] == multiset(s[1..])[v := 0];
        rest
      else
        assert multiset([s[0]] + rest) == multiset{s[0]} + multiset(rest);
        assert (multiset{s[0]} + multiset(s[1..]))[v := 0] == multiset{s[0]} + multiset(s[1..])[v := 0];
        [s[0]] + rest
  }

  /** Deselecting keeps the other values in their order: it distributes over concatenation. */
  lemma {:induction false} WithoutAppend<T>(a: seq<T>, b: seq<T>, v: T)
    ensures Without(a + b, v) == Without(a, v) + Without(b, v)
  {
    if a == [] {
      assert a + b == b;
    } else {
      assert (a + b)[0] == a[0] && (a + b)[1..] == a[1..] + b;
      WithoutAppend(a[1..], b, v);
    }
  }

  /** Deselecting a value that is not selected changes nothing. */
  lemma {:induction false} WithoutAbsent<T>(s: seq<T>, v: T)
    requires v !in s
    ensures Without(s, v) == s
  {
    if s != [] {
      WithoutAbsent(s[1..], v);
    }
  }

  /** Selecting `x` twice and deselecting it leaves it absent; after the two selects it is present once. */
  lemma SelectSelectDeselect<T>(s: seq<T>, x: T)
    ensures multiset(WithSelected(WithSelected(s, x), x))[x] == if x in s then multiset(s)[x] else 1
    ensures x !in Without(WithSelected(WithSelected(s, x), x), x)
  {
    SelectIdempotent(s, x);
  }

  /** `createCheckboxGroup`: a store whose value is the array of selected values. */
  class CheckboxGroup<T(==)> {
    var value: seq<T>

    /** `createCheckboxGroup(initialValues = [])`: pass `[]` for the default. */
    constructor (initialValues: seq<T>)
      ensures value == initialValues
    {
      value := initialValues;
    }

    /** `isSelected(v)`: `includes`, a synchronous peek that leaves the value alone. */
    method IsSelected(v: T) returns (b: bool)
      ensures b <==> v in value
    {
      b := IndexOf(value, v) >= 0;
    }

    method Toggle(v: T)
      modifies this
      ensures value == CheckboxToggled(old(value), v)
    {
      value := CheckboxToggled(value, v);
    }

    method Select(v: T)
      modifies this
      ensures value == WithSelected(old(value), v)
    {
      value := WithSelected(value, v);
    }

    method Deselect(v: T)
      modifies this
      ensures value == Without(old(value), v)
    {
      value := Without(value, v);
    }

    /** The store's own `set`. */
    method Set(newValue: seq<T>)
      modifies this
      ensures value == newValue
    {
      value := newValue;
    }

    /** The store's own `update`, with a total updater. */
    method Update(updater: seq<T> -> seq<T>)
      modifies this
      ensures value == updater(old(value))
    {
      value := updater(value);
    }
  }
}
