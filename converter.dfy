/**
 * The converter: the bridge between one editor component and one named
 * property. It detects changes against the last value it read, notifies its
 * listeners, keeps an error flag, and marks up a set of components with error
 * colours, restoring their own colours when the error is cleared.
 */
module Converters {
  import opened Base

  /**
   * Markup instructions for one component: which of its sides are marked, and
   * the colours those sides showed before the last `setError`.
   */
  datatype MarkupNode = MarkupNode(foreground: bool, background: bool, foregroundColor: Option<Color>, backgroundColor: Option<Color>)

  /** A fresh node: marks neither side and has saved nothing. */
  const NewNode: MarkupNode := MarkupNode(false, false, None, None)

  /** Every markup entry marks at least one side. */
  ghost predicate AllMarked(m: map<Component, MarkupNode>)
  {
    forall k :: k in m ==> m[k].foreground || m[k].background
  }

  /** `addForegroundMarkup` (`foreground`) or `addBackgroundMarkup` on the markup table. */
  function AddMarkup(m: map<Component, MarkupNode>, k: Component, foreground: bool): (r: map<Component, MarkupNode>)
    ensures r.Keys == m.Keys + {k}
    ensures forall j :: j in m && j != k ==> r[j] == m[j]
    ensures r[k].foreground == (foreground || (k in m && m[k].foreground))
    ensures r[k].background == (!foreground || (k in m && m[k].background))
    ensures k in m ==> r[k].foregroundColor == m[k].foregroundColor && r[k].backgroundColor == m[k].backgroundColor
    ensures AllMarked(m) ==> AllMarked(r)
  {
    var node := if k in m then m[k] else NewNode;
    m[k := if foreground then node.(foreground := true) else node.(background := true)]
  }

  /**
   * `removeForegroundMarkup` (`foreground`) or `removeBackgroundMarkup`: the
   * entry goes when the other side is not marked, else only this side is
   * unmarked; a component without an entry is ignored.
   */
  function RemoveMarkup(m: map<Component, MarkupNode>, k: Component, foreground: bool): (r: map<Component, MarkupNode>)
    ensures k !in m ==> r == m
    ensures k in m ==> (k in r <==> (if foreground then m[k].background else m[k].foreground))
    ensures k in r ==> r[k] == (if foreground then m[k].(foreground := false) else m[k].(background := false))
    ensures r.Keys <= m.Keys && forall j :: j in m && j != k ==> j in r && r[j] == m[j]
    ensures AllMarked(m) ==> AllMarked(r)
  {
    if k !in m then m
    else if foreground && m[k].background then m[k := m[k].(foreground := false)]
    else if !foreground && m[k].foreground then m[k := m[k].(background := false)]
    else m - {k}
  }

  /** The colour a side shows while the error is on. */
  function MarkedColor(marked: bool, shown: Option<Color>, errorColor: Color): Option<Color>
  {
    if marked then Some(errorColor) else shown
  }

  /** The colour a side shows after the error is cleared. */
  function RevertedColor(marked: bool, saved: Option<Color>, shown: Option<Color>): Option<Color>
  {
    if marked && IsErrorColor(shown) then saved else shown
  }

  /** `MarkupNode.setError` saves the colour of each marked side. */
  function SaveColors(n: MarkupNode, shownForeground: Option<Color>, shownBackground: Option<Color>): MarkupNode
  {
    n.(foregroundColor := if n.foreground then shownForeground else n.foregroundColor,
       backgroundColor := if n.background then shownBackground else n.backgroundColor)
  }

  /**
   * Marking a side and then clearing it gives back the colour it showed
   * before, if nobody touched it in between; a side whose colour was replaced
   * by one that is not an error colour keeps that colour. An unmarked side is
   * never touched.
   */
  lemma MarkThenRevert(n: MarkupNode, fg: Option<Color>, bg: Option<Color>, fgError: Color, bgError: Color, fgLater: Option<Color>, bgLater: Option<Color>)
    requires fgError.tagged && bgError.tagged
    ensures var s := SaveColors(n, fg, bg);
      && RevertedColor(s.foreground, s.foregroundColor, MarkedColor(n.foreground, fg, fgError)) == fg
      && RevertedColor(s.background, s.backgroundColor, MarkedColor(n.background, bg, bgError)) == bg
    ensures var s := SaveColors(n, fg, bg);
      && (!IsErrorColor(fgLater) ==> RevertedColor(s.foreground, s.foregroundColor, fgLater) == fgLater)
      && (!IsErrorColor(bgLater) ==> RevertedColor(s.background, s.backgroundColor, bgLater) == bgLater)
  {
  }

  /** Java's `oldValue == null ? newValue != null : !oldValue.equals(newValue)`, as `changeValue` tests it. */
  predicate Differs(newValue: Option<Value>, previous: Option<Value>)
  {
    (newValue.None? && previous.Some?) || (newValue.Some? && newValue != previous)
  }

  /** The null-aware test is plain inequality of the optional values. */
  lemma DiffersIsInequality(newValue: Option<Value>, previous: Option<Value>)
    ensures Differs(newValue, previous) <==> newValue != previous
  {
  }

  class Converter {
    const component: Component
    const translator: TranslatorId
    const name: string
    var useWhenDisabled: bool
    var error: bool
    var foregroundErrorColor: Color
    var backgroundErrorColor: Color
    var markup: map<Component, MarkupNode>
    var listeners: set<Listener>
    var previousValue: Option<Value>
    /** The `propertyChange` calls made so far, in order. */
    ghost var notified: seq<Event>

    /** Every markup entry marks a side, and the error colours are tagged. */
    ghost predicate Valid()
      reads this
    {
      AllMarked(markup) && foregroundErrorColor.tagged && backgroundErrorColor.tagged
    }

    /** The three-argument constructor, once its null checks have passed. */
    constructor (name: string, component: Component, translator: TranslatorId)
      ensures Valid()
      ensures this.name == name && this.component == component && this.translator == translator
      ensures !useWhenDisabled && !error && previousValue == None
      ensures markup == map[] && listeners == {} && notified == []
      ensures foregroundErrorColor == DefaultForegroundError && backgroundErrorColor == DefaultBackgroundError
    {
      this.name := name;
      this.component := component;
      this.translator := translator;
      useWhenDisabled := false;
      error := false;
      foregroundErrorColor := DefaultForegroundError;
      backgroundErrorColor := DefaultBackgroundError;
      markup := map[];
      listeners := {};
      previousValue := None;
      notified := [];
    }

    /** `Converter(String, U, Translator)`: the null checks run in the order name, component, translator. */
    static method New(name: Option<string>, component: Component?, translator: Option<TranslatorId>) returns (r: Result<Converter>)
      ensures name.None? ==> r == Failure(NullPointer("name"))
      ensures name.Some? && component == null ==> r == Failure(NullPointer("component"))
      ensures name.Some? && component != null && translator.None? ==> r == Failure(NullPointer("translator"))
      ensures r.Success? <==> name.Some? && component != null && translator.Some?
      ensures r.Success? ==> fresh(r.value) && r.value.Valid()
      ensures r.Success? ==> r.value.name == name.value && r.value.component == component && r.value.translator == translator.value
      ensures r.Success? ==> !r.value.useWhenDisabled && !r.value.error && r.value.previousValue == None
      ensures r.Success? ==> r.value.markup == map[] && r.value.listeners == {} && r.value.notified == []
      ensures r.Success? ==> r.value.foregroundErrorColor == DefaultForegroundError && r.value.backgroundErrorColor == DefaultBackgroundError
    {
      if name.None? {
        return Failure(NullPointer("name"));
      }
      if component == null {
        return Failure(NullPointer("component"));
      }
      if translator.None? {
        return Failure(NullPointer("translator"));
      }
      var c := new Converter(name.value, component, translator.value);
      return Success(c);
    }

    /** `Converter(U, Translator)`: the property is named after the component. */
    static method ForComponent(component: Component?, translator: Option<TranslatorId>) returns (r: Result<Converter>)
      ensures component == null ==> r == Failure(NullPointer(""))
      ensures component != null && component.name.None? ==> r == Failure(NullPointer("name"))
      ensures component != null && component.name.Some? && translator.None? ==> r == Failure(NullPointer("translator"))
      ensures r.Success? <==> component != null && component.name.Some? && translator.Some?
      ensures r.Success? ==> fresh(r.value) && r.value.Valid()
      ensures r.Success? ==> r.value.name == component.name.value && r.value.component == component && r.value.translator == translator.value
      ensures r.Success? ==> !r.value.useWhenDisabled && !r.value.error && r.value.previousValue == None
      ensures r.Success? ==> r.value.markup == map[] && r.value.listeners == {} && r.value.notified == []
      ensures r.Success? ==> r.value.foregroundErrorColor == DefaultForegroundError && r.value.backgroundErrorColor == DefaultBackgroundError
    {
      if component == null {
        return Failure(NullPointer(""));
      }
      r := New(component.name, component, translator);
    }

    /** Whether forms should use this property: the flag, or an enabled editor. */
    predicate IsEnabled()
      reads this, component
    {
      useWhenDisabled || component.enabled
    }

    method SetUseableWhenDisabled(b: bool)
      modifies `useWhenDisabled
      ensures useWhenDisabled == b
      ensures IsEnabled() <==> b || component.enabled
    {
      useWhenDisabled := b;
    }

    /** Nothing the markup methods touch has changed, except possibly the saved colours. */
    twostate predicate SameSetup()
      reads this, markup.Keys
    {
      && markup.Keys == old(markup.Keys)
      && useWhenDisabled == old(useWhenDisabled) && listeners == old(listeners)
      && foregroundErrorColor == old(foregroundErrorColor) && backgroundErrorColor == old(backgroundErrorColor)
      && forall k :: k in markup ==> k.enabled == old(k.enabled)
    }

    /** The markup table and every marked-up component's colours are as they were. */
    twostate predicate ColorsUntouched()
      reads this, markup.Keys
    {
      && markup == old(markup)
      && forall k :: k in markup ==> k.foreground == old(k.foreground) && k.background == old(k.background)
    }

    /**
     * The effect of `setError`: the flag is on; if it was off, each entry saved
     * the colours of its marked sides and those sides now show the error
     * colours; if it was already on, nothing moved.
     */
    twostate predicate ErrorMarked()
      reads this, markup.Keys
    {
      && error
      && SameSetup()
      && if old(error) then ColorsUntouched()
         else forall k :: k in markup ==>
                && markup[k] == SaveColors(old(markup)[k], old(k.foreground), old(k.background))
                && k.foreground == MarkedColor(old(markup)[k].foreground, old(k.foreground), foregroundErrorColor)
                && k.background == MarkedColor(old(markup)[k].background, old(k.background), backgroundErrorColor)
    }

    /**
     * The effect of `clearError`: the flag is off; if it was on, each marked
     * side that still shows an error colour gets its saved colour back.
     */
    twostate predicate ErrorCleared()
      reads this, markup.Keys
    {
      && !error
      && SameSetup()
      && markup == old(markup)
      && if !old(error) then ColorsUntouched()
         else forall k :: k in markup ==>
                && k.foreground == RevertedColor(markup[k].foreground, markup[k].foregroundColor, old(k.foreground))
                && k.background == RevertedColor(markup[k].background, markup[k].backgroundColor, old(k.background))
    }

    /** The value history and the notifications are as they were. */
    twostate predicate Quiet()
      reads this
    {
      previousValue == old(previousValue) && notified == old(notified)
    }

    /**
     * The effect of `changeValue(newValue)`: on a real change every listener
     * heard it once and the value is recorded; otherwise nothing happened.
     */
    twostate predicate ChangeNoticed(new newValue: Option<Value>)
      reads this
    {
      && previousValue == newValue
      && Announced(old(notified), notified, listeners, name, old(previousValue), newValue)
    }

    method ClearError()
      modifies this, markup.Keys
      ensures ErrorCleared()
      ensures Quiet()
    {
      if error {
        var todo := markup.Keys;
        while todo != {}
          modifies markup.Keys
          invariant todo <= markup.Keys
          invariant forall k :: k in markup ==> k.enabled == old(k.enabled)
          invariant forall k :: k in todo ==> k.foreground == old(k.foreground) && k.background == old(k.background)
          invariant forall k :: k in markup && k !in todo ==>
                      && k.foreground == RevertedColor(markup[k].foreground, markup[k].foregroundColor, old(k.foreground))
                      && k.background == RevertedColor(markup[k].background, markup[k].backgroundColor, old(k.background))
          decreases todo
        {
          var k :| k in todo;
          RevertSides(k, markup[k]);
          todo := todo - {k};
        }
        error := false;
      }
    }

    method SetError()
      modifies this, markup.Keys
      ensures ErrorMarked()
      ensures Quiet()
      ensures old(Valid()) ==> Valid()
    {
      if !error {
        markup := MarkAll(markup);
        error := true;
      }
    }

    /** The loop of `setError`: every entry of `m0` saves and marks its component's sides. */
    method MarkAll(m0: map<Component, MarkupNode>) returns (m: map<Component, MarkupNode>)
      modifies m0.Keys
      ensures m.Keys == m0.Keys
      ensures forall k :: k in m0 ==> k.enabled == old(k.enabled)
      ensures forall k :: k in m0 ==>
                && m[k] == SaveColors(m0[k], old(k.foreground), old(k.background))
                && k.foreground == MarkedColor(m0[k].foreground, old(k.foreground), foregroundErrorColor)
                && k.background == MarkedColor(m0[k].background, old(k.background), backgroundErrorColor)
    {
      m := m0;
      var todo := m0.Keys;
      while todo != {}
        invariant todo <= m0.Keys && m.Keys == m0.Keys
        invariant forall k :: k in m0 ==> k.enabled == old(k.enabled)
        invariant forall k :: k in todo ==>
                    m[k] == m0[k] && k.foreground == old(k.foreground) && k.background == old(k.background)
        invariant forall k :: k in m0 && k !in todo ==>
                    && m[k] == SaveColors(m0[k], old(k.foreground), old(k.background))
                    && k.foreground == MarkedColor(m0[k].foreground, old(k.foreground), foregroundErrorColor)
                    && k.background == MarkedColor(m0[k].background, old(k.background), backgroundErrorColor)
        decreases todo
      {
        var k :| k in todo;
        var node := MarkSides(k, m[k]);
        m := m[k := node];
        todo := todo - {k};
      }
    }

    /** `MarkupNode.setError` on one entry: save each marked side's colour and show the error colour. */
    method MarkSides(k: Component, n: MarkupNode) returns (saved: MarkupNode)
      modifies k`foreground, k`background
      ensures saved == SaveColors(n, old(k.foreground), old(k.background))
      ensures k.foreground == MarkedColor(n.foreground, old(k.foreground), foregroundErrorColor)
      ensures k.background == MarkedColor(n.background, old(k.background), backgroundErrorColor)
    {
      saved := n;
      if n.foreground {
        saved := saved.(foregroundColor := k.foreground);
        k.foreground := Some(foregroundErrorColor);
      }
      if n.background {
        saved := saved.(backgroundColor := k.background);
        k.background := Some(backgroundErrorColor);
      }
    }

    /** `MarkupNode.clearError` on one entry: a marked side still showing an error colour gets its saved colour. */
    method RevertSides(k: Component, n: MarkupNode)
      modifies k`foreground, k`background
      ensures k.foreground == RevertedColor(n.foreground, n.foregroundColor, old(k.foreground))
      ensures k.background == RevertedColor(n.background, n.backgroundColor, old(k.background))
    {
      if n.foreground && IsErrorColor(k.foreground) {
        k.foreground := n.foregroundColor;
      }
      if n.background && IsErrorColor(k.background) {
        k.background := n.backgroundColor;
      }
    }

    /** `setErrorForeground`: the colour is copied into an error colour. */
    method SetErrorForeground(color: Option<Color>) returns (r: Result<()>)
      modifies `foregroundErrorColor
      ensures color.None? ==> r == Failure(NullPointer("")) && foregroundErrorColor == old(foregroundErrorColor)
      ensures color.Some? ==> r == Success(()) && foregroundErrorColor == color.value.(tagged := true)
      ensures old(Valid()) ==> Valid()
    {
      if color.None? {
        return Failure(NullPointer(""));
      }
      foregroundErrorColor := color.value.(tagged := true);
      return Success(());
    }

    /** `setErrorBackground`: the colour is copied into an error colour. */
    method SetErrorBackground(color: Option<Color>) returns (r: Result<()>)
      modifies `backgroundErrorColor
      ensures color.None? ==> r == Failure(NullPointer("")) && backgroundErrorColor == old(backgroundErrorColor)
      ensures color.Some? ==> r == Success(()) && backgroundErrorColor == color.value.(tagged := true)
      ensures old(Valid()) ==> Valid()
    {
      if color.None? {
        return Failure(NullPointer(""));
      }
      backgroundErrorColor := color.value.(tagged := true);
      return Success(());
    }

    method AddForegroundMarkup(k: Component)
      modifies `markup
      ensures markup == AddMarkup(old(markup), k, true)
      ensures old(Valid()) ==> Valid()
    {
      var node := if k in markup then markup[k] else NewNode;
      markup := markup[k := node.(foreground := true)];
    }

    method RemoveForegroundMarkup(k: Component)
      modifies `markup
      ensures markup == RemoveMarkup(old(markup), k, true)
      ensures old(Valid()) ==> Valid()
    {
      if k in markup {
        var node := markup[k];
        if node.background {
          markup := markup[k := node.(foreground := false)];
        } else {
          markup := markup - {k};
        }
      }
    }

    method AddBackgroundMarkup(k: Component)
      modifies `markup
      ensures markup == AddMarkup(old(markup), k, false)
      ensures old(Valid()) ==> Valid()
    {
      var node := if k in markup then markup[k] else NewNode;
      markup := markup[k := node.(background := true)];
    }

    method RemoveBackgroundMarkup(k: Component)
      modifies `markup
      ensures markup == RemoveMarkup(old(markup), k, false)
      ensures old(Valid()) ==> Valid()
    {
      if k in markup {
        var node := markup[k];
        if node.foreground {
          markup := markup[k := node.(background := false)];
        } else {
          markup := markup - {k};
        }
      }
    }

    method AddListener(l: Listener)
      modifies `listeners
      ensures listeners == old(listeners) + {l}
    {
      listeners := listeners + {l};
    }

    method AddListeners(ls: set<Listener>)
      modifies `listeners
      ensures listeners == old(listeners) + ls
    {
      listeners := listeners + ls;
    }

    method RemoveListener(l: Listener)
      modifies `listeners
      ensures listeners == old(listeners) - {l}
    {
      listeners := listeners - {l};
    }

    /**
     * `removeListeners(Collection)`: the parameter shadows the field, so the
     * call empties the caller's collection (returned here as its new contents)
     * and leaves this converter's listeners alone.
     */
    method RemoveListeners(ls: set<Listener>) returns (remaining: set<Listener>)
      ensures remaining == {}
    {
      remaining := ls - ls;
    }

    method RemoveAllListeners()
      modifies `listeners
      ensures listeners == {}
    {
      listeners := {};
    }

    /** `changeValue`: notify and record only on a real, null-aware change. */
    method ChangeValue(newValue: Option<Value>) returns (changed: bool)
      modifies `previousValue, `notified
      ensures changed <==> newValue != old(previousValue)
      ensures ChangeNoticed(newValue)
    {
      DiffersIsInequality(newValue, previousValue);
      changed := Differs(newValue, previousValue);
      if changed {
        var batch := Notify(listeners, name, previousValue, newValue);
        notified := notified + batch;
        assert notified[|old(notified)|..] == batch;
        previousValue := newValue;
      }
    }

    /**
     * `readValue(notify)`, where `got` is what the translator's `readValue`
     * did: a value is returned (and, with `notify`, checked for a change); a
     * `TranslatorException` marks the error and is rethrown; a
     * `ClassCastException` passes through.
     */
    method ReadValue(notify: bool, got: Attempt<Option<Value>>) returns (r: Result<Option<Value>>)
      modifies this, markup.Keys
      ensures got.Ok? ==> r == Success(got.value) && error == old(error) && SameSetup() && ColorsUntouched()
      ensures got.Ok? && notify ==> ChangeNoticed(got.value)
      ensures got.Ok? && !notify ==> Quiet()
      ensures got.Fail? ==> r == Failure(TranslatorFailure) && ErrorMarked() && Quiet()
      ensures got.Mismatch? ==> r == Failure(ComponentMismatch) && error == old(error) && SameSetup() && ColorsUntouched() && Quiet()
      ensures old(Valid()) ==> Valid()
    {
      match got
      case Ok(v) =>
        if notify {
          var _ := ChangeValue(v);
        }
        r := Success(v);
      case Fail =>
        SetError();
        r := Failure(TranslatorFailure);
      case Mismatch(_) =>
        r := Failure(ComponentMismatch);
    }

    /**
     * `checkValue(mark)`: reports whether a successful read found a change; a
     * failed read reports no change and marks the error only when asked.
     */
    method CheckValue(mark: bool, got: Attempt<Option<Value>>) returns (r: Result<bool>)
      modifies this, markup.Keys
      ensures got.Ok? ==> r == Success(got.value != old(previousValue)) && ChangeNoticed(got.value)
      ensures got.Ok? ==> error == old(error) && SameSetup() && ColorsUntouched()
      ensures got.Fail? ==> r == Success(false) && Quiet()
      ensures got.Fail? && mark ==> ErrorMarked()
      ensures got.Fail? && !mark ==> error == old(error) && SameSetup() && ColorsUntouched()
      ensures got.Mismatch? ==> r == Failure(ComponentMismatch) && error == old(error) && SameSetup() && ColorsUntouched() && Quiet()
      ensures old(Valid()) ==> Valid()
    {
      match got
      case Ok(v) =>
        var changed := ChangeValue(v);
        r := Success(changed);
      case Fail =>
        if mark {
          SetError();
        }
        r := Success(false);
      case Mismatch(_) =>
        r := Failure(ComponentMismatch);
    }

    /**
     * `readString(notify)`, where `now` is what the translator would return:
     * the string comes from `readString`; with `notify` a `checkValue(false)`
     * follows, which calls the translator's `readValue`.
     */
    method ReadString(notify: bool, now: Reading) returns (r: Result<Option<string>>)
      modifies this, markup.Keys
      ensures now.str.Fail? ==> r == Failure(TranslatorFailure) && ErrorMarked() && Quiet()
      ensures now.str.Mismatch? ==> r == Failure(ComponentMismatch) && error == old(error) && SameSetup() && ColorsUntouched() && Quiet()
      ensures now.str.Ok? && !notify ==> r == Success(now.str.value) && error == old(error) && SameSetup() && ColorsUntouched() && Quiet()
      ensures now.str.Ok? && notify ==> error == old(error) && SameSetup() && ColorsUntouched()
      ensures now.str.Ok? && notify && now.value.Mismatch? ==> r == Failure(ComponentMismatch) && Quiet()
      ensures now.str.Ok? && notify && now.value.Fail? ==> r == Success(now.str.value) && Quiet()
      ensures now.str.Ok? && notify && now.value.Ok? ==> r == Success(now.str.value) && ChangeNoticed(now.value.value)
      ensures old(Valid()) ==> Valid()
    {
      match now.str
      case Ok(s) =>
        if notify {
          var checked := CheckValue(false, now.value);
          if checked.Failure? {
            return Failure(checked.error);
          }
        }
        r := Success(s);
      case Fail =>
        SetError();
        r := Failure(TranslatorFailure);
      case Mismatch(_) =>
        r := Failure(ComponentMismatch);
    }

    /**
     * `writeValue`: the write goes straight to the translator; `accepted`
     * says whether it raised a `TranslatorException`. Writing never notifies.
     */
    method WriteValue(value: Option<Value>, accepted: bool) returns (r: Result<()>)
      ensures r == if accepted then Success(()) else Failure(TranslatorFailure)
    {
      r := if accepted then Success(()) else Failure(TranslatorFailure);
    }

    /** `writeChecked`: a write followed by `checkValue(mark)`, whose result is dropped. */
    method WriteChecked(value: Option<Value>, accepted: bool, mark: bool, got: Attempt<Option<Value>>) returns (r: Result<()>)
      modifies this, markup.Keys
      ensures !accepted ==> r == Failure(TranslatorFailure) && unchanged(this)
      ensures accepted && got.Mismatch? ==> r == Failure(ComponentMismatch) && error == old(error) && Quiet()
      ensures accepted && got.Ok? ==> r == Success(()) && ChangeNoticed(got.value) && error == old(error)
      ensures accepted && got.Fail? ==> r == Success(()) && Quiet() && (mark ==> ErrorMarked())
      ensures !(accepted && got.Fail? && mark) ==> error == old(error) && ColorsUntouched()
      ensures SameSetup()
    {
      r := WriteValue(value, accepted);
      if r.Success? {
        var checked := CheckValue(mark, got);
        if checked.Failure? {
          r := Failure(checked.error);
        }
      }
    }
  }

  /** `Color.RED` and `Color.PINK`, as error colours. */
  const DefaultForegroundError: Color := Color(0xFFFF0000, true)
  const DefaultBackgroundError: Color := Color(0xFFFFAFAF, true)

  /**
   * A read with `notify` off leaves the value history alone, so a later
   * `checkValue` of the same value still reports the change and notifies.
   */
  method SilentReadKeepsChangePending(c: Converter, v: Option<Value>) returns (seen: Result<Option<Value>>, reported: Result<bool>)
    modifies c, c.markup.Keys
    ensures v != old(c.previousValue) ==> reported == Success(true)
    ensures seen == Success(v) && c.previousValue == v
  {
    seen := c.ReadValue(false, Ok(v));
    reported := c.CheckValue(false, Ok(v));
  }

  /**
   * A second `changeValue` with the value just recorded reports no change and
   * notifies nobody: the two calls together broadcast at most once.
   */
  method RepeatedChangeIsQuiet(c: Converter, v: Option<Value>) returns (first: bool, second: bool)
    modifies c
    ensures first <==> v != old(c.previousValue)
    ensures !second && c.previousValue == v
    ensures c.ChangeNoticed(v)
  {
    first := c.ChangeValue(v);
    label once:
    second := c.ChangeValue(v);
    assert c.notified == old@once(c.notified);
  }

  /**
   * `setError` followed by `clearError`, with nobody touching the colours in
   * between, gives every marked-up component its colours back.
   */
  method MarkThenClearRestores(c: Converter)
    requires c.Valid() && !c.error
    modifies c, c.markup.Keys
    ensures !c.error && c.markup.Keys == old(c.markup.Keys)
    ensures forall k :: k in c.markup ==> k.foreground == old(k.foreground) && k.background == old(k.background)
  {
    c.SetError();
    label marked:
    c.ClearError();
    forall k | k in c.markup
      ensures k.foreground == old(k.foreground) && k.background == old(k.background)
    {
      MarkThenRevert(old(c.markup)[k], old(k.foreground), old(k.background), c.foregroundErrorColor, c.backgroundErrorColor, old@marked(k.foreground), old@marked(k.background));
    }
  }
}
