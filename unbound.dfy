/**
 * Unbound properties: a property the manager knows by name only, holding a
 * value, its string form and a set of listeners until a converter of that
 * name is registered.
 */
module Unbound {
  import opened Base
  import opened Converters

  /**
   * `updateValue`'s string: the one given, else the value's `toString()`,
   * else `null` for a `null` value.
   */
  function StringFor(value: Option<Value>, given: Option<string>): (s: Option<string>)
    ensures given.Some? ==> s == given
    ensures given.None? ==> (s.None? <==> value.None?)
    ensures given.None? && value.Some? ==> s == Some(ToString(value.value))
  {
    if given.Some? then given
    else if value.None? then None
    else Some(ToString(value.value))
  }

  /**
   * What `UnboundNode(Converter)` does to the converter it reads, by
   * `readString()` and then `readValue()`, both with notification: two
   * successful reads record the value and notify as one `changeValue` does;
   * a `TranslatorException` from either marks the error and notifies nobody;
   * a `ClassCastException` changes nothing.
   */
  twostate predicate ReadForNode(cv: Converter, now: Reading)
    reads cv, cv.markup.Keys
  {
    if now.str.Ok? && now.value.Ok? then
      cv.ChangeNoticed(now.value.value) && cv.error == old(cv.error) && cv.SameSetup() && cv.ColorsUntouched()
    else if now.str.Fail? || (now.str.Ok? && now.value.Fail?) then
      cv.ErrorMarked() && cv.Quiet()
    else
      cv.error == old(cv.error) && cv.SameSetup() && cv.ColorsUntouched() && cv.Quiet()
  }

  class UnboundNode {
    const name: string
    var value: Option<Value>
    var str: Option<string>
    var listeners: set<Listener>
    /** The `propertyChange` calls made so far, in order. */
    ghost var notified: seq<Event>

    /**
     * `UnboundNode(name, value, string, listener)`, which the two shorter
     * constructors call with `null` for what they lack.
     */
    constructor (name: string, value: Option<Value>, given: Option<string>, listener: Option<Listener>)
      ensures this.name == name && this.value == value && str == StringFor(value, given)
      ensures listeners == (if listener.Some? then {listener.value} else {})
      ensures notified == []
    {
      this.name := name;
      this.value := value;
      str := StringFor(value, given);
      listeners := if listener.Some? then {listener.value} else {};
      notified := [];
    }

    /** The fields of an unbound property, exactly as given (used when a converter is unbound). */
    constructor Snapshot(name: string, value: Option<Value>, str: Option<string>, listeners: set<Listener>)
      ensures this.name == name && this.value == value && this.str == str && this.listeners == listeners
      ensures notified == []
    {
      this.name := name;
      this.value := value;
      this.str := str;
      this.listeners := listeners;
      notified := [];
    }

    /**
     * `UnboundNode(Converter)`: `readString()` then `readValue()`, both with
     * notification, where `now` is what the translator returns. If either
     * raises a `TranslatorException` the value becomes whatever string was
     * read so far (`null` if `readString` failed). A `ClassCastException`
     * passes through.
     */
    static method FromConverter(cv: Converter, now: Reading) returns (r: Result<UnboundNode>)
      modifies cv, cv.markup.Keys
      ensures now.str.Mismatch? || (now.str.Ok? && now.value.Mismatch?) <==> r.Failure?
      ensures r.Failure? ==> r.error == ComponentMismatch
      ensures r.Success? ==> fresh(r.value) && r.value.name == cv.name && r.value.listeners == old(cv.listeners)
      ensures r.Success? ==> r.value.notified == []
      ensures now.str.Fail? ==> r.Success? && r.value.str.None? && r.value.value.None?
      ensures now.str.Ok? && now.value.Fail? ==> r.Success? && r.value.str == now.str.value && r.value.value == AsObject(now.str.value)
      ensures now.str.Ok? && now.value.Ok? ==> r.Success? && r.value.str == now.str.value && r.value.value == now.value.value
      ensures ReadForNode(cv, now)
      ensures old(cv.Valid()) ==> cv.Valid()
    {
      var text: Option<string> := None;
      var value: Option<Value>;
      var read := cv.ReadString(true, now);
      if read.Failure? && read.error == ComponentMismatch {
        return Failure(ComponentMismatch);
      }
      if read.Failure? {
        value := AsObject(text);
      } else {
        text := read.value;
        var got := cv.ReadValue(true, now.value);
        if got.Failure? && got.error == ComponentMismatch {
          return Failure(ComponentMismatch);
        }
        value := if got.Failure? then AsObject(text) else got.value;
      }
      var node := new UnboundNode.Snapshot(cv.name, value, text, cv.listeners);
      return Success(node);
    }

    /**
     * `setValue`: on a change every listener hears it and the value and its
     * string are updated; an equal value changes nothing, not even the
     * string. Setting `null` over `null` throws a `NullPointerException`,
     * because the null test falls through to `newValue.equals`.
     */
    method SetValue(newValue: Option<Value>, newString: Option<string>) returns (r: Result<()>)
      modifies `value, `str, `notified
      ensures r.Failure? <==> newValue.None? && old(value).None?
      ensures r.Failure? ==> r.error == NullPointer("") && value == old(value) && str == old(str) && notified == old(notified)
      ensures r.Success? ==> value == newValue && Announced(old(notified), notified, listeners, name, old(value), newValue)
      ensures r.Success? ==> str == if newValue == old(value) then old(str) else StringFor(newValue, newString)
    {
      if newValue.None? && value.None? {
        return Failure(NullPointer(""));
      }
      if newValue != value {
        var batch := Notify(listeners, name, value, newValue);
        notified := notified + batch;
        assert notified[|old(notified)|..] == batch;
        value := newValue;
        str := StringFor(newValue, newString);
      }
      return Success(());
    }

    method AddListener(l: Listener)
      modifies `listeners
      ensures listeners == old(listeners) + {l}
    {
      listeners := listeners + {l};
    }

    method RemoveListener(l: Listener)
      modifies `listeners
      ensures listeners == old(listeners) - {l}
    {
      listeners := listeners - {l};
    }

    /**
     * `bind`: hand the listeners to the converter, then write the value, and
     * if the translator rejects it, the string. `valueAccepted` and
     * `stringAccepted` say whether each write raised a `TranslatorException`;
     * a rejected write is swallowed. The writes attempted are returned.
     */
    method Bind(cv: Converter, valueAccepted: bool, stringAccepted: bool) returns (attempted: seq<Value>)
      modifies cv`listeners
      ensures cv.listeners == old(cv.listeners) + listeners
      ensures value.None? ==> attempted == []
      ensures value.Some? && (valueAccepted || str.None?) ==> attempted == [value.value]
      ensures value.Some? && !valueAccepted && str.Some? ==> attempted == [value.value, Str(str.value)]
    {
      cv.AddListeners(listeners);
      attempted := [];
      if value.Some? {
        var w := cv.WriteValue(value, valueAccepted);
        attempted := [value.value];
        if w.Failure? && str.Some? {
          var _ := cv.WriteValue(Some(Str(str.value)), stringAccepted);
          attempted := attempted + [Str(str.value)];
        }
      }
    }
  }
}
