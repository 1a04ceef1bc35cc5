/** The value cell of a typed property (typedproperty.h): a current value and a default value;
    observers are told about changes of the current value made through set_value. */
module TypedProperties {
  class TypedProperty<T(==)> {
    /** m_value, read by value(). */
    var value: T
    /** m_default_value, read by default_value(). */
    var defaultValue: T
    /** How many times the observers were told that the value changed. */
    var notifications: nat

    /** The given default is both the value and the default. */
    constructor (defaultValue: T)
      ensures value == defaultValue && this.defaultValue == defaultValue && notifications == 0
    {
      value := defaultValue;
      this.defaultValue := defaultValue;
      notifications := 0;
    }

    /** set_value: a different value is stored and the observers are told once; an equal value
        changes nothing. */
    method SetValue(v: T)
      modifies this`value, this`notifications
      ensures value == v
      ensures old(value) != v ==> notifications == old(notifications) + 1
      ensures old(value) == v ==> notifications == old(notifications)
    {
      if value != v {
        value := v;
        notifications := notifications + 1;
      }
    }

    /** set_default_value: only the default changes. */
    method SetDefaultValue(v: T)
      modifies this`defaultValue
      ensures defaultValue == v
    {
      defaultValue := v;
    }

    /** reset: the value becomes the default; no observer is told. */
    method Reset()
      modifies this`value
      ensures value == defaultValue
    {
      value := defaultValue;
    }
  }

  /** Setting a value twice tells the observers at most once. */
  method SetTwice<T(==)>(p: TypedProperty<T>, v: T)
    modifies p
    ensures p.value == v && p.defaultValue == old(p.defaultValue)
    ensures p.notifications == old(p.notifications) + (if old(p.value) != v then 1 else 0)
  {
    p.SetValue(v);
    p.SetValue(v);
  }

  /** Resetting right after construction leaves the value at the default and tells nobody. */
  method ResetAfterChange<T(==)>(d: T, v: T) returns (p: TypedProperty<T>)
    ensures fresh(p)
    ensures p.value == d && p.defaultValue == d
    ensures p.notifications == (if v != d then 1 else 0)
  {
    p := new TypedProperty(d);
    p.SetValue(v);
    p.Reset();
  }
}
