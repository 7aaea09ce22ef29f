/**
 * Shared vocabulary of the JForm model: the values that flow between form
 * fields and property maps, colours, listener notifications, the outcomes of
 * a translator call, and the toolkit component that everything is attached to.
 */
module Base {

  datatype Option<T> = None | Some(value: T)

  /**
   * A property value. Java's `Object` is modelled by a few representative
   * shapes; `None` (in `Option<Value>`) stands for `null`. Datatype equality
   * plays the part of `Object.equals`: in particular a `Str` never equals a
   * `Bool`, as `String.equals` and `Boolean.equals` behave.
   */
  datatype Value = Str(s: string) | Bool(b: bool) | Obj(id: nat, text: string)

  /** `Object.toString()` of a value. */
  function ToString(v: Value): string
  {
    match v
    case Str(s) => s
    case Bool(b) => if b then "true" else "false"
    case Obj(_, text) => text
  }

  /** A string seen as an object (`Object o = someString`), null-aware. */
  function AsObject(s: Option<string>): (r: Option<Value>)
    ensures r.None? <==> s.None?
    ensures s.Some? ==> r == Some(Str(s.value))
  {
    match s
    case None => None
    case Some(t) => Some(Str(t))
  }

  /**
   * A colour. `tagged` records whether the instance is of the private
   * `ErrorColor` subclass that `Converter` uses to recognise its own markup.
   */
  datatype Color = Color(rgba: nat, tagged: bool)

  /** `color instanceof ErrorColor`, with `null` never an error colour. */
  predicate IsErrorColor(c: Option<Color>)
  {
    c.Some? && c.value.tagged
  }

  /** An opaque property change listener. */
  type Listener = nat

  /** An opaque translator identity. */
  type TranslatorId = nat

  /** One `propertyChange` call: which listener heard which change. */
  datatype Event = Event(listener: Listener, property: string, oldValue: Option<Value>, newValue: Option<Value>)

  /**
   * `batch` is one broadcast of the change `oldValue -> newValue` of
   * `property`: every listener of `ls` hears it, exactly once, and nobody else.
   */
  ghost predicate Broadcast(batch: seq<Event>, ls: set<Listener>, property: string, oldValue: Option<Value>, newValue: Option<Value>)
  {
    && (forall i :: 0 <= i < |batch| ==>
          batch[i].listener in ls && batch[i].property == property
          && batch[i].oldValue == oldValue && batch[i].newValue == newValue)
    && (forall i, j :: 0 <= i < j < |batch| ==> batch[i].listener != batch[j].listener)
    && (forall l :: l in ls ==> exists i :: 0 <= i < |batch| && batch[i].listener == l)
  }

  /**
   * The log `after` is `before` followed by one broadcast of the change when
   * the value really changed, and `before` itself when it did not.
   */
  ghost predicate Announced(before: seq<Event>, after: seq<Event>, ls: set<Listener>, property: string,
                            oldValue: Option<Value>, newValue: Option<Value>)
  {
    if newValue != oldValue then
      && |before| <= |after| && after[..|before|] == before
      && Broadcast(after[|before|..], ls, property, oldValue, newValue)
    else
      after == before
  }

  /**
   * One `for (listener : listeners) listener.propertyChange(event)` loop:
   * the calls made, in the order the set happened to be iterated.
   */
  method Notify(ls: set<Listener>, property: string, oldValue: Option<Value>, newValue: Option<Value>) returns (batch: seq<Event>)
    ensures Broadcast(batch, ls, property, oldValue, newValue)
  {
    var todo := ls;
    batch := [];
    while todo != {}
      invariant todo <= ls
      invariant forall i :: 0 <= i < |batch| ==>
                  batch[i].listener in ls - todo && batch[i].property == property
                  && batch[i].oldValue == oldValue && batch[i].newValue == newValue
      invariant forall i, j :: 0 <= i < j < |batch| ==> batch[i].listener != batch[j].listener
      invariant forall l :: l in ls - todo ==> exists i :: 0 <= i < |batch| && batch[i].listener == l
      decreases todo
    {
      var l :| l in todo;
      ghost var heard := ls - todo;
      ghost var before := batch;
      batch := batch + [Event(l, property, oldValue, newValue)];
      assert forall i :: 0 <= i < |before| ==> batch[i] == before[i];
      todo := todo - {l};
      forall l' | l' in ls - todo
        ensures exists i :: 0 <= i < |batch| && batch[i].listener == l'
      {
        if l' == l {
          assert batch[|batch| - 1].listener == l';
        } else {
          assert l' in heard;
          var i :| 0 <= i < |before| && before[i].listener == l';
          assert batch[i].listener == l';
        }
      }
    }
    forall l | l in ls
      ensures exists i :: 0 <= i < |batch| && batch[i].listener == l
    {
      assert l in ls - todo;
    }
  }

  /** The exceptions the core raises. */
  datatype Error =
    | TranslatorFailure          // a TranslatorException raised by a translator
    | Failures(count: nat)       // the aggregate TranslatorException of importConfig/export
    | ComponentMismatch          // a TranslatorComponentException or ClassCastException
    | NullPointer(what: string)  // a NullPointerException ("" when it carries no message)
    | Internal                   // the InternalError of JFormManager.register

  datatype Result<T> = Success(value: T) | Failure(error: Error)

  /**
   * What one call into a translator did: returned a value, raised a
   * `TranslatorException`, or raised a `ClassCastException` (`tagged` when
   * it is the `TranslatorComponentException` subclass).
   */
  datatype Attempt<T> = Ok(value: T) | Fail | Mismatch(tagged: bool)

  /**
   * What the translator of a converter would return for its component now:
   * the outcome of `readValue` and the outcome of `readString`.
   */
  datatype Reading = Reading(value: Attempt<Option<Value>>, str: Attempt<Option<string>>)

  /** Names of component classes. */
  type ClassName = string

  const ComponentClass: ClassName := "java.awt.Component"

  /**
   * The superclass chain of a component class, most specific first. It ends in
   * `java.awt.Component`, which appears nowhere else, as for every subclass of
   * `java.awt.Component`.
   */
  ghost predicate ValidChain(s: seq<ClassName>)
  {
    |s| > 0 && s[|s| - 1] == ComponentClass && forall i :: 0 <= i < |s| - 1 ==> s[i] != ComponentClass
  }

  type ClassChain = s: seq<ClassName> | ValidChain(s) witness [ComponentClass]

  /**
   * A toolkit component. Only the state the core reads or writes is kept: its
   * name, its class chain, whether it is enabled, and its two colours
   * (`None` is a `null` colour).
   */
  class Component {
    const name: Option<string>
    const chain: ClassChain
    var enabled: bool
    var foreground: Option<Color>
    var background: Option<Color>

    constructor (name: Option<string>, chain: ClassChain, enabled: bool, foreground: Option<Color>, background: Option<Color>)
      ensures this.name == name && this.chain == chain && this.enabled == enabled
      ensures this.foreground == foreground && this.background == background
    {
      this.name := name;
      this.chain := chain;
      this.enabled := enabled;
      this.foreground := foreground;
      this.background := background;
    }
  }
}
