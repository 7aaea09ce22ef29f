/**
 * The form manager: a registry of bound properties (a converter reachable
 * both by its component and by its name) and unbound properties (a value
 * and listeners known by name only), with per-property access and bulk
 * import, export, check and error clearing.
 */
module Manager {
  import opened Base
  import opened Converters
  import opened Unbound

  /** The three maps of a manager. */
  datatype Registry = Registry(
    components: map<Component, Converter>,
    names: map<string, Converter>,
    unbound: map<string, UnboundNode>)

  /**
   * The documented invariant of the three maps: the component map and the
   * name map hold the same converters, each under its own component and its
   * own name, and no unbound property shares a name with a bound one.
   */
  ghost predicate Consistent(r: Registry)
  {
    && (forall c :: c in r.components ==>
          r.components[c].component == c
          && r.components[c].name in r.names && r.names[r.components[c].name] == r.components[c])
    && (forall n :: n in r.names ==>
          r.names[n].name == n
          && r.names[n].component in r.components && r.components[r.names[n].component] == r.names[n])
    && (forall n :: n in r.unbound ==> n !in r.names && r.unbound[n].name == n)
  }

  function Lookup<K, V>(m: map<K, V>, k: K): (r: Option<V>)
    ensures r.Some? <==> k in m
    ensures k in m ==> r.value == m[k]
  {
    if k in m then Some(m[k]) else None
  }

  /** `isProperty`: bound or unbound. */
  predicate IsProperty(r: Registry, n: string)
  {
    n in r.names || n in r.unbound
  }

  /** The maps after `register`, whether or not its sanity check then fails. */
  function AfterRegister(r: Registry, cv: Converter): Registry
  {
    Registry(r.components[cv.component := cv], r.names[cv.name := cv], r.unbound - {cv.name})
  }

  /** `register`'s sanity check: the converters it displaced by component and by name are the same. */
  predicate RegisterSucceeds(r: Registry, cv: Converter)
  {
    Lookup(r.components, cv.component) == Lookup(r.names, cv.name)
  }

  /**
   * On consistent maps the sanity check of `register` passes exactly when
   * the maps it leaves behind are consistent again: a failed check means
   * the maps are already broken when the `InternalError` is thrown.
   */
  lemma RegisterKeepsConsistency(r: Registry, cv: Converter)
    requires Consistent(r)
    ensures RegisterSucceeds(r, cv) <==> Consistent(AfterRegister(r, cv))
  {
    var r' := AfterRegister(r, cv);
    if RegisterSucceeds(r, cv) {
      forall c | c in r'.components
        ensures r'.components[c].component == c
        ensures r'.components[c].name in r'.names && r'.names[r'.components[c].name] == r'.components[c]
      {
        if c != cv.component {
          // the converter displaced by name was the one displaced by component
          assert r.components[c].name != cv.name;
        }
      }
      forall n | n in r'.names
        ensures r'.names[n].name == n
        ensures r'.names[n].component in r'.components && r'.components[r'.names[n].component] == r'.names[n]
      {
        if n != cv.name {
          assert r.names[n].component != cv.component;
        }
      }
    } else {
      match Lookup(r.components, cv.component)
      case Some(p) =>
        // `p` loses its component entry but keeps its name entry.
        assert p.name != cv.name;
        assert p.name in r'.names && r'.names[p.name] == p;
        assert r'.components[p.component] == cv;
      case None =>
        var q := r.names[cv.name];
        // `q` loses its name entry but keeps its component entry.
        assert q.component != cv.component;
        assert q.component in r'.components && r'.components[q.component] == q;
        assert r'.names[q.name] == cv;
    }
  }

  /** The maps after `deregister(Converter)`: both keys of the converter are removed, whoever they map to. */
  function AfterDeregister(r: Registry, cv: Converter): Registry
  {
    Registry(r.components - {cv.component}, r.names - {cv.name}, r.unbound)
  }

  /** Deregistering a registered converter keeps the maps consistent and removes it from both. */
  lemma DeregisterKeepsConsistency(r: Registry, cv: Converter)
    requires Consistent(r) && cv.name in r.names && r.names[cv.name] == cv
    ensures Consistent(AfterDeregister(r, cv))
    ensures cv.name !in AfterDeregister(r, cv).names && cv.component !in AfterDeregister(r, cv).components
    ensures forall n :: n in r.names && n != cv.name ==> n in AfterDeregister(r, cv).names
  {
    var r' := AfterDeregister(r, cv);
    forall c | c in r'.components
      ensures r'.components[c].name in r'.names
    {
      assert r.components[c] != cv;
    }
  }

  /**
   * When `deregister(Converter)` cannot break consistent maps: whatever is
   * registered under the converter's name has the converter's component,
   * and whatever is registered for its component has the converter's name.
   * The registered converter itself qualifies, and so does one whose keys
   * are both free.
   */
  predicate DeregisterHarmless(r: Registry, cv: Converter)
  {
    && (cv.name in r.names ==> r.names[cv.name].component == cv.component)
    && (cv.component in r.components ==> r.components[cv.component].name == cv.name)
  }

  /**
   * On consistent maps, `deregister(Converter)` leaves them consistent
   * exactly when `DeregisterHarmless` holds: otherwise a converter keeps one
   * of its two entries and loses the other.
   */
  lemma DeregisterConsistentExactly(r: Registry, cv: Converter)
    requires Consistent(r)
    ensures Consistent(AfterDeregister(r, cv)) <==> DeregisterHarmless(r, cv)
  {
    var d := AfterDeregister(r, cv);
    if cv.name in r.names && r.names[cv.name].component != cv.component {
      // the converter under the name keeps its component entry
      var p := r.names[cv.name];
      assert p.component in d.components && d.components[p.component] == p && p.name !in d.names;
    } else if cv.component in r.components && r.components[cv.component].name != cv.name {
      // the converter for the component keeps its name entry
      var q := r.components[cv.component];
      assert q.name in d.names && d.names[q.name] == q && q.component !in d.components;
    }
  }

  /** The maps after `unbind(Converter)`: deregistered, then an unbound property under its name. */
  function AfterUnbind(r: Registry, cv: Converter, node: UnboundNode): Registry
  {
    var d := AfterDeregister(r, cv);
    Registry(d.components, d.names, d.unbound[cv.name := node])
  }

  /**
   * On consistent maps, `unbind(Converter)` with a node of the converter's
   * name leaves them consistent exactly when `deregister` would.
   */
  lemma UnbindConsistentExactly(r: Registry, cv: Converter, node: UnboundNode)
    requires Consistent(r) && node.name == cv.name
    ensures Consistent(AfterUnbind(r, cv, node)) <==> DeregisterHarmless(r, cv)
  {
    DeregisterConsistentExactly(r, cv);
    var d := AfterDeregister(r, cv);
    var u := AfterUnbind(r, cv, node);
    assert u.components == d.components && u.names == d.names;
    if Consistent(d) {
      assert forall n :: n in u.unbound ==> n !in u.names && u.unbound[n].name == n;
    }
  }

  /** Unbinding a registered converter keeps the maps consistent and the name a property. */
  lemma UnbindKeepsConsistency(r: Registry, cv: Converter, node: UnboundNode)
    requires Consistent(r) && cv.name in r.names && r.names[cv.name] == cv && node.name == cv.name
    ensures Consistent(AfterUnbind(r, cv, node))
    ensures IsProperty(AfterUnbind(r, cv, node), cv.name) && cv.name !in AfterUnbind(r, cv, node).names
    ensures forall n :: IsProperty(r, n) <==> IsProperty(AfterUnbind(r, cv, node), n)
  {
    DeregisterKeepsConsistency(r, cv);
  }

  /** Registering a converter, then deregistering it, leaves no trace of its name or component. */
  lemma RegisterThenDeregister(r: Registry, cv: Converter, n: string)
    requires n != cv.name
    ensures var r' := AfterDeregister(AfterRegister(r, cv), cv);
      && cv.name !in r'.names && cv.component !in r'.components && cv.name !in r'.unbound
      && (n in r'.names <==> n in r.names) && (n in r'.unbound <==> n in r.unbound)
  {
  }

  /** What `readValue` returns for a translator outcome. */
  function ReadOutcome(got: Attempt<Option<Value>>): (r: Result<Option<Value>>)
    ensures r.Success? <==> got.Ok?
    ensures got.Ok? ==> r.value == got.value
    ensures got.Fail? ==> r.error == TranslatorFailure
    ensures got.Mismatch? ==> r.error == ComponentMismatch
  {
    match got
    case Ok(v) => Success(v)
    case Fail => Failure(TranslatorFailure)
    case Mismatch(_) => Failure(ComponentMismatch)
  }

  /** What `readString()` (with notification) returns for the translator's outcomes. */
  function ReadStringOutcome(now: Reading): (r: Result<Option<string>>)
    ensures r.Success? <==> now.str.Ok? && !now.value.Mismatch?
    ensures r.Success? ==> r.value == now.str.value
    ensures now.str.Fail? ==> r.error == TranslatorFailure
    ensures now.str.Mismatch? || (now.str.Ok? && now.value.Mismatch?) ==> r.error == ComponentMismatch
  {
    match now.str
    case Ok(s) => if now.value.Mismatch? then Failure(ComponentMismatch) else Success(s)
    case Fail => Failure(TranslatorFailure)
    case Mismatch(_) => Failure(ComponentMismatch)
  }

  /** The components marked up by any of the converters. */
  ghost function MarkedUp(vs: set<Converter>): set<Component>
    reads vs
  {
    set cv, k | cv in vs && k in cv.markup :: k
  }

  /** The converters that forms use: those whose `isEnabled()` holds. */
  ghost function Enabled(vs: set<Converter>): set<Converter>
    reads vs, set cv | cv in vs :: cv.component
  {
    set cv | cv in vs && cv.IsEnabled()
  }

  /** Consistent maps hold the same converters. */
  lemma SameConverters(r: Registry)
    requires Consistent(r)
    ensures r.components.Values == r.names.Values
  {
    forall cv | cv in r.components.Values
      ensures cv in r.names.Values
    {
      var c :| c in r.components && r.components[c] == cv;
      assert r.names[cv.name] == cv;
    }
    forall cv | cv in r.names.Values
      ensures cv in r.components.Values
    {
      var n :| n in r.names && r.names[n] == cv;
      assert r.components[cv.component] == cv;
    }
  }

  /** `clearError()` on one converter of a bulk clear, with only what the clear needs of its contract. */
  method ClearOne(cv: Converter, ghost vs: set<Converter>)
    modifies cv, cv.markup.Keys
    ensures !cv.error && cv.markup == old(cv.markup)
    ensures cv.previousValue == old(cv.previousValue) && cv.notified == old(cv.notified)
    ensures Enabled(vs) == old(Enabled(vs)) && MarkedUp(vs) == old(MarkedUp(vs))
  {
    cv.ClearError();
  }

  /** Visiting one more converter adds it to the enabled ones visited exactly when it is enabled. */
  lemma VisitOne(enabled: set<Converter>, visited: set<Converter>, cv: Converter)
    ensures enabled * (visited + {cv}) == if cv in enabled then enabled * visited + {cv} else enabled * visited
  {
  }

  /**
   * What `check` did to one converter that had value `prev` and log
   * `heard`: if it was checked and its translator gave a value,
   * `changeValue` recorded the value and notified every listener on a
   * change; otherwise nothing was recorded and nobody was notified.
   */
  ghost predicate Rechecked(cv: Converter, checked: bool, got: Attempt<Option<Value>>, prev: Option<Value>, heard: seq<Event>)
    reads cv
  {
    if checked && got.Ok? then
      cv.previousValue == got.value && Announced(heard, cv.notified, cv.listeners, cv.name, prev, got.value)
    else
      cv.previousValue == prev && cv.notified == heard
  }

  /**
   * One converter during `check(mark)`, from error flag `err`: rechecked as
   * `Rechecked` says, and its error set only where a marked check failed.
   */
  ghost predicate Tracked(cv: Converter, mark: bool, checked: bool, got: Attempt<Option<Value>>,
                          err: bool, prev: Option<Value>, heard: seq<Event>)
    reads cv
  {
    cv.error == (err || (mark && checked && got.Fail?)) && Rechecked(cv, checked, got, prev, heard)
  }

  /**
   * One step of a bulk scan: `checkValue(mark)` on one converter, with only
   * what the scan needs of its contract.
   */
  method CheckOne(cv: Converter, mark: bool, got: Attempt<Option<Value>>, ghost vs: set<Converter>) returns (r: Result<bool>)
    modifies cv, cv.markup.Keys
    ensures Enabled(vs) == old(Enabled(vs)) && MarkedUp(vs) == old(MarkedUp(vs))
    ensures Tracked(cv, mark, true, got, old(cv.error), old(cv.previousValue), old(cv.notified))
    ensures !got.Mismatch? ==> r == Success(got.Ok? && got.value != old(cv.previousValue))
    ensures got.Mismatch? ==> r == Failure(ComponentMismatch)
    ensures got.Fail? && mark ==> cv.error
    ensures !(got.Fail? && mark) ==> cv.error == old(cv.error)
    ensures cv.markup.Keys == old(cv.markup.Keys) && cv.useWhenDisabled == old(cv.useWhenDisabled)
    ensures forall k :: k in cv.markup ==> k.enabled == old(k.enabled)
  {
    r := cv.CheckValue(mark, got);
  }

  /**
   * A subset of the bound names is as large as the set of bound names only
   * when it is all of them: the reason `importConfig` may compare counts.
   */
  lemma CountsMatchOnlyWhenAll(written: set<string>, bound: set<string>)
    requires written <= bound
    ensures |written| == |bound| <==> written == bound
  {
    if written != bound {
      var x :| x in bound && x !in written;
      SubsetIsSmaller(written, bound - {x});
    }
  }

  lemma {:induction false} SubsetIsSmaller(a: set<string>, b: set<string>)
    requires a <= b
    ensures |a| <= |b|
    decreases |a|
  {
    if a != {} {
      var y :| y in a;
      SubsetIsSmaller(a - {y}, b - {y});
    }
  }

  /** Visiting one more name adds it to the rejected or the written names, or to neither when it is unbound. */
  lemma CountStep(visited: set<string>, bound: set<string>, accepted: string -> bool, n: string,
                  rejected: set<string>, written: set<string>)
    requires n !in visited
    requires rejected == Rejected(visited, bound, accepted) && written == Written(visited, bound, accepted)
    ensures Rejected(visited + {n}, bound, accepted) == if n in bound && !accepted(n) then rejected + {n} else rejected
    ensures Written(visited + {n}, bound, accepted) == if n in bound && accepted(n) then written + {n} else written
    ensures n !in rejected && n !in written
  {
  }

  /** The names among `keys` that are bound and whose write the translator accepted. */
  function Written(keys: set<string>, bound: set<string>, accepted: string -> bool): (w: set<string>)
    ensures w <= bound && w <= keys
  {
    set n | n in keys && n in bound && accepted(n)
  }

  /** The names among `keys` that are bound and whose write the translator rejected. */
  function Rejected(keys: set<string>, bound: set<string>, accepted: string -> bool): (w: set<string>)
    ensures w <= bound && w <= keys
  {
    set n | n in keys && n in bound && !accepted(n)
  }

  /** The outcome `export` sees for one converter: `readValue`, or `readString` as a `String` object. */
  function Outcome(now: Reading, strings: bool): (a: Attempt<Option<Value>>)
    ensures !strings ==> a == now.value
    ensures strings ==> (a.Ok? <==> now.str.Ok?) && (a.Fail? <==> now.str.Fail?)
    ensures strings && now.str.Ok? ==> a.value == AsObject(now.str.value)
    ensures strings && now.str.Mismatch? ==> a == Mismatch(now.str.tagged)
  {
    if !strings then now.value
    else match now.str
      case Ok(s) => Ok(AsObject(s))
      case Fail => Fail
      case Mismatch(t) => Mismatch(t)
  }

  /** Some enabled converter raises a plain `ClassCastException`, which `export` rethrows at once. */
  ghost predicate ExportAborts(enabled: set<Converter>, strings: bool, outcomes: Converter -> Reading)
  {
    exists cv :: cv in enabled && Outcome(outcomes(cv), strings) == Mismatch(false)
  }

  /** The enabled converters whose read raises a `TranslatorException`. */
  function FailedReads(enabled: set<Converter>, strings: bool, outcomes: Converter -> Reading): set<Converter>
  {
    set cv | cv in enabled && Outcome(outcomes(cv), strings).Fail?
  }

  /** Some enabled converter's `readValue` raises a `ClassCastException` during the closing `check(false)`. */
  ghost predicate RecheckAborts(enabled: set<Converter>, outcomes: Converter -> Reading)
  {
    exists cv :: cv in enabled && outcomes(cv).value.Mismatch?
  }

  /** The bound part of an export: each enabled converter read without exception, by name. */
  function BoundExport(names: map<string, Converter>, enabled: set<Converter>, strings: bool, outcomes: Converter -> Reading): map<string, Option<Value>>
  {
    map n | n in names && names[n] in enabled && Outcome(outcomes(names[n]), strings).Ok? :: Outcome(outcomes(names[n]), strings).value
  }

  /** The unbound part of an export: every unbound property's value, or its string. */
  function UnboundExport(unbound: map<string, UnboundNode>, strings: bool): map<string, Option<Value>>
    reads unbound.Values
  {
    map n | n in unbound :: if strings then AsObject(unbound[n].str) else unbound[n].value
  }

  /**
   * When `export` succeeds, its result names exactly the unbound properties
   * and the enabled bound ones whose read did not raise a
   * `TranslatorComponentException`; a disabled converter's name is absent
   * unless an unbound property has it.
   */
  lemma ExportedNames(names: map<string, Converter>, unbound: map<string, UnboundNode>, enabled: set<Converter>,
                      strings: bool, outcomes: Converter -> Reading)
    requires !ExportAborts(enabled, strings, outcomes) && FailedReads(enabled, strings, outcomes) == {}
    ensures forall n :: n in BoundExport(names, enabled, strings, outcomes) + UnboundExport(unbound, strings) <==>
              n in unbound || (n in names && names[n] in enabled && Outcome(outcomes(names[n]), strings) != Mismatch(true))
  {
    forall n | n in names && names[n] in enabled
      ensures Outcome(outcomes(names[n]), strings).Ok? <==> Outcome(outcomes(names[n]), strings) != Mismatch(true)
    {
      var cv := names[n];
      assert cv !in FailedReads(enabled, strings, outcomes);
      assert Outcome(outcomes(cv), strings) != Mismatch(false);
    }
  }

  /** Before the scan has visited anybody, it has found nothing. */
  lemma NothingScanned(names: map<string, Converter>, enabled: set<Converter>, strings: bool, outcomes: Converter -> Reading)
    ensures BoundExport(names, enabled * {}, strings, outcomes) == map[]
    ensures FailedReads(enabled * {}, strings, outcomes) == {}
    ensures !ExportAborts(enabled * {}, strings, outcomes)
  {
    assert enabled * {} == {};
  }

  /** Scanning one more converter adds at most its own name, failure or abort to what the scan found. */
  lemma ScanStep(names: map<string, Converter>, enabled: set<Converter>, visited: set<Converter>, cv: Converter,
                 strings: bool, outcomes: Converter -> Reading)
    requires cv !in visited && cv.name in names && names[cv.name] == cv
    requires forall n :: n in names ==> names[n].name == n
    ensures BoundExport(names, enabled * (visited + {cv}), strings, outcomes) ==
              if cv in enabled && Outcome(outcomes(cv), strings).Ok?
              then BoundExport(names, enabled * visited, strings, outcomes)[cv.name := Outcome(outcomes(cv), strings).value]
              else BoundExport(names, enabled * visited, strings, outcomes)
    ensures FailedReads(enabled * (visited + {cv}), strings, outcomes) ==
              if cv in enabled && Outcome(outcomes(cv), strings).Fail?
              then FailedReads(enabled * visited, strings, outcomes) + {cv}
              else FailedReads(enabled * visited, strings, outcomes)
    ensures ExportAborts(enabled * (visited + {cv}), strings, outcomes) <==>
              ExportAborts(enabled * visited, strings, outcomes) || (cv in enabled && Outcome(outcomes(cv), strings) == Mismatch(false))
  {
    var now := enabled * (visited + {cv});
    assert cv in enabled ==> now == enabled * visited + {cv};
    assert cv !in enabled ==> now == enabled * visited;
  }

  /**
   * One step of `export`'s scan: `readString(false)` or `readValue(false)`
   * on one converter, with only what the scan needs of its contract.
   */
  method ExportOne(cv: Converter, strings: bool, now: Reading, ghost vs: set<Converter>) returns (r: Result<Option<Value>>)
    modifies cv, cv.markup.Keys
    ensures Enabled(vs) == old(Enabled(vs)) && MarkedUp(vs) == old(MarkedUp(vs))
    ensures r == ReadOutcome(Outcome(now, strings))
    ensures cv.error == (old(cv.error) || Outcome(now, strings).Fail?)
    ensures cv.markup.Keys == old(cv.markup.Keys) && cv.useWhenDisabled == old(cv.useWhenDisabled)
    ensures forall k :: k in cv.markup ==> k.enabled == old(k.enabled)
    ensures cv.notified == old(cv.notified) && cv.previousValue == old(cv.previousValue)
  {
    if strings {
      var s := cv.ReadString(false, now);
      r := if s.Success? then Success(AsObject(s.value)) else Failure(s.error);
    } else {
      r := cv.ReadValue(false, now.value);
    }
  }

  /** The mutable fields of an unbound property. */
  datatype NodeState = NodeState(value: Option<Value>, str: Option<string>, listeners: set<Listener>)

  /**
   * `set(name, value, null)` on a name with no converter, when it does not
   * throw: a missing property is created with the value's string and no
   * listeners; an existing one changes value and string only if the value
   * differs.
   */
  function SetNode(s: Option<NodeState>, value: Option<Value>): NodeState
  {
    match s
    case None => NodeState(value, StringFor(value, None), {})
    case Some(x) => if value == x.value then x else x.(value := value, str := StringFor(value, None))
  }

  /** The one way `set(name, value, null)` throws on an unbound name: `null` over `null`. */
  predicate NullOverNull(nodes: map<string, NodeState>, properties: map<string, Option<Value>>, bound: set<string>, n: string)
    requires n in properties
  {
    n !in bound && n in nodes && properties[n].None? && nodes[n].value.None?
  }

  /** The unbound properties after `importConfig` has set the `visited` entries. */
  function Imported(nodes: map<string, NodeState>, properties: map<string, Option<Value>>, visited: set<string>, bound: set<string>): (m: map<string, NodeState>)
    requires visited <= properties.Keys
    ensures m.Keys == nodes.Keys + (visited - bound)
  {
    map n | n in nodes.Keys + (visited - bound) ::
      if n in visited && n !in bound then SetNode(Lookup(nodes, n), properties[n]) else nodes[n]
  }

  /** Setting one more entry: a bound one leaves the unbound properties alone. */
  lemma ImportedStep(nodes: map<string, NodeState>, properties: map<string, Option<Value>>, visited: set<string>, bound: set<string>, n: string)
    requires visited <= properties.Keys && n in properties && n !in visited
    ensures Lookup(Imported(nodes, properties, visited, bound), n) == Lookup(nodes, n)
    ensures Imported(nodes, properties, visited + {n}, bound) ==
              if n in bound then Imported(nodes, properties, visited, bound)
              else Imported(nodes, properties, visited, bound)[n := SetNode(Lookup(nodes, n), properties[n])]
  {
    var before := Imported(nodes, properties, visited, bound);
    var after := Imported(nodes, properties, visited + {n}, bound);
    if n in bound {
      assert after == before;
    } else {
      assert after == before[n := SetNode(Lookup(nodes, n), properties[n])];
    }
  }

  /**
   * What a complete import leaves: every unbound entry holds its imported
   * value, a property created by it has the value's string and no
   * listeners, and every other unbound property is unchanged.
   */
  lemma ImportedValues(nodes: map<string, NodeState>, properties: map<string, Option<Value>>, bound: set<string>)
    ensures Imported(nodes, properties, properties.Keys, bound).Keys == nodes.Keys + (properties.Keys - bound)
    ensures forall n :: n in properties && n !in bound ==> Imported(nodes, properties, properties.Keys, bound)[n].value == properties[n]
    ensures forall n :: n in properties && n !in bound && n !in nodes ==>
              Imported(nodes, properties, properties.Keys, bound)[n] == NodeState(properties[n], StringFor(properties[n], None), {})
    ensures forall n :: n in nodes && n in properties && n !in bound ==>
              Imported(nodes, properties, properties.Keys, bound)[n].listeners == nodes[n].listeners
    ensures forall n :: n in nodes && (n !in properties || n in bound) ==> Imported(nodes, properties, properties.Keys, bound)[n] == nodes[n]
  {
  }

  /**
   * The notification logs after `set(name, value, null)` on the unbound
   * name `n`, from logs `heard` of properties `nodes`: an existing property
   * broadcasts a change of value to its listeners and is silent otherwise;
   * a property it creates has heard nothing; no other log changes.
   */
  ghost predicate SetHeard(heard: map<string, seq<Event>>, nodes: map<string, NodeState>, n: string, value: Option<Value>,
                           now: map<string, seq<Event>>)
  {
    && n in now && now == heard[n := now[n]]
    && if n in nodes then n in heard && Announced(heard[n], now[n], nodes[n].listeners, n, nodes[n].value, value)
       else now[n] == []
  }

  /**
   * The notification logs of the unbound properties after `importConfig`
   * has set the `visited` entries, from logs `heard` of properties `nodes`:
   * each property it set broadcast its change of value, each property it
   * created has heard nothing, and every other log is as it was.
   */
  ghost predicate ImportHeard(nodes: map<string, NodeState>, heard: map<string, seq<Event>>, properties: map<string, Option<Value>>,
                              visited: set<string>, bound: set<string>, now: map<string, seq<Event>>)
    requires visited <= properties.Keys
  {
    && heard.Keys == nodes.Keys && now.Keys == nodes.Keys + (visited - bound)
    && forall n :: n in now ==>
         if n !in nodes then now[n] == []
         else if n in visited && n !in bound then Announced(heard[n], now[n], nodes[n].listeners, n, nodes[n].value, properties[n])
         else now[n] == heard[n]
  }

  /** Setting one more entry extends the logs as `SetHeard` says, or leaves them for a bound name. */
  lemma ImportHeardStep(nodes: map<string, NodeState>, heard: map<string, seq<Event>>, properties: map<string, Option<Value>>,
                        visited: set<string>, bound: set<string>, n: string, before: map<string, seq<Event>>,
                        current: map<string, NodeState>, after: map<string, seq<Event>>)
    requires visited <= properties.Keys && n in properties && n !in visited
    requires ImportHeard(nodes, heard, properties, visited, bound, before)
    requires Lookup(current, n) == Lookup(nodes, n)
    requires n in bound ==> after == before
    requires n !in bound ==> SetHeard(before, current, n, properties[n], after)
    ensures ImportHeard(nodes, heard, properties, visited + {n}, bound, after)
  {
  }

  class JFormManager {
    var components: map<Component, Converter>
    var names: map<string, Converter>
    var unbound: map<string, UnboundNode>

    function State(): Registry
      reads this
    {
      Registry(components, names, unbound)
    }

    ghost predicate Valid()
      reads this
    {
      Consistent(State())
    }

    constructor ()
      ensures State() == Registry(map[], map[], map[]) && Valid()
    {
      components := map[];
      names := map[];
      unbound := map[];
    }

    /**
     * `register(Converter)`: an unbound property of the same name is removed
     * and bound to the converter (`valueAccepted` and `stringAccepted` say
     * whether the translator takes its value and its string); then both maps
     * get the converter, and the sanity check runs last.
     */
    method Register(cv: Converter, valueAccepted: bool, stringAccepted: bool) returns (r: Result<()>)
      modifies this, cv`listeners
      ensures State() == AfterRegister(old(State()), cv)
      ensures r.Success? <==> RegisterSucceeds(old(State()), cv)
      ensures r.Failure? ==> r.error == Internal
      ensures cv.name in old(unbound) ==> cv.listeners == old(cv.listeners) + old(unbound[cv.name].listeners)
      ensures cv.name !in old(unbound) ==> cv.listeners == old(cv.listeners)
      ensures old(Valid()) ==> (Valid() <==> r.Success?)
    {
      if Valid() {
        RegisterKeepsConsistency(State(), cv);
      }
      if cv.name in unbound {
        var previous := unbound[cv.name];
        unbound := unbound - {cv.name};
        var _ := previous.Bind(cv, valueAccepted, stringAccepted);
      }
      var previous1 := Lookup(components, cv.component);
      var previous2 := Lookup(names, cv.name);
      components := components[cv.component := cv];
      names := names[cv.name := cv];
      if previous1 != previous2 {
        return Failure(Internal);
      }
      return Success(());
    }

    /**
     * `register(name, component, translator)`: a new converter, whose
     * constructor's `NullPointerException` leaves the maps alone, then
     * `register(Converter)`.
     */
    method RegisterNew(name: Option<string>, component: Component?, translator: Option<TranslatorId>, valueAccepted: bool, stringAccepted: bool)
        returns (r: Result<()>, cv: Converter?)
      modifies this
      ensures name.None? || component == null || translator.None? ==>
                cv == null && State() == old(State()) && r == Failure(NullPointer(if name.None? then "name" else if component == null then "component" else "translator"))
      ensures name.Some? && component != null && translator.Some? ==>
                && cv != null && fresh(cv) && cv.name == name.value && cv.component == component
                && State() == AfterRegister(old(State()), cv)
                && (r.Success? <==> RegisterSucceeds(old(State()), cv)) && (r.Failure? ==> r.error == Internal)
    {
      var made := Converter.New(name, component, translator);
      if made.Failure? {
        return Failure(made.error), null;
      }
      cv := made.value;
      r := Register(cv, valueAccepted, stringAccepted);
    }

    /** `register(component, translator)`: as `register(name, ...)`, named after the component. */
    method RegisterComponent(component: Component?, translator: Option<TranslatorId>, valueAccepted: bool, stringAccepted: bool)
        returns (r: Result<()>, cv: Converter?)
      modifies this
      ensures component == null || component.name.None? || translator.None? ==> cv == null && State() == old(State()) && r.Failure?
      ensures component != null && component.name.Some? && translator.Some? ==>
                && cv != null && fresh(cv) && cv.name == component.name.value && cv.component == component
                && State() == AfterRegister(old(State()), cv)
                && (r.Success? <==> RegisterSucceeds(old(State()), cv)) && (r.Failure? ==> r.error == Internal)
    {
      var made := Converter.ForComponent(component, translator);
      if made.Failure? {
        return Failure(made.error), null;
      }
      cv := made.value;
      r := Register(cv, valueAccepted, stringAccepted);
    }

    /** `getComponent(String)`: the component of the converter bound to the name, or `null`. */
    function ComponentOf(n: string): (r: Option<Component>)
      reads this
      ensures r.Some? <==> n in names
      ensures r.Some? ==> r.value == names[n].component
    {
      if n in names then Some(names[n].component) else None
    }

    /** `getName(Component)`: the name of the converter registered for the component, or `null`. */
    function NameOf(c: Component): (r: Option<string>)
      reads this
      ensures r.Some? <==> c in components
      ensures r.Some? ==> r.value == components[c].name
    {
      if c in components then Some(components[c].name) else None
    }

    /** On consistent maps `getName` and `getComponent` undo each other. */
    lemma NameAndComponentAgree()
      requires Valid()
      ensures forall n :: n in names ==> ComponentOf(n).Some? && NameOf(ComponentOf(n).value) == Some(n)
      ensures forall c :: c in components ==> NameOf(c).Some? && ComponentOf(NameOf(c).value) == Some(c)
    {
      forall n | n in names
        ensures NameOf(names[n].component) == Some(n)
      {
        assert components[names[n].component] == names[n];
      }
      forall c: Component | c in components
        ensures ComponentOf(components[c].name) == Some(c)
      {
        assert names[components[c].name] == components[c];
      }
    }

    /** `deregister(Converter)`, where `null` does nothing. */
    method DeregisterConverter(cv: Converter?)
      modifies this
      ensures cv == null ==> State() == old(State())
      ensures cv != null ==> State() == AfterDeregister(old(State()), cv)
      ensures cv != null && old(Valid()) ==> (Valid() <==> DeregisterHarmless(old(State()), cv))
    {
      if cv != null {
        ghost var before := State();
        names := names - {cv.name};
        components := components - {cv.component};
        if Consistent(before) {
          DeregisterConsistentExactly(before, cv);
        }
      }
    }

    /** `deregister(Component)`: the converter registered for the component, if any. */
    method DeregisterComponent(c: Component)
      modifies this
      ensures c !in old(components) ==> State() == old(State())
      ensures c in old(components) ==> State() == AfterDeregister(old(State()), old(components[c]))
      ensures old(Valid()) ==> Valid() && c !in components
    {
      if c in components {
        if Valid() {
          DeregisterKeepsConsistency(State(), components[c]);
        }
        DeregisterConverter(components[c]);
      }
    }

    /** `deregister(String)`: a bound property is deregistered, an unbound one forgotten. */
    method DeregisterName(n: string)
      modifies this
      ensures n in old(names) ==> State() == AfterDeregister(old(State()), old(names[n]))
      ensures n !in old(names) ==> State() == old(State()).(unbound := old(unbound) - {n})
      ensures old(Valid()) ==> Valid() && !IsProperty(State(), n)
    {
      if n in names {
        if Valid() {
          DeregisterKeepsConsistency(State(), names[n]);
        }
        DeregisterConverter(names[n]);
      } else {
        unbound := unbound - {n};
      }
    }

    /**
     * `unbind(Converter)`: deregister, then keep the property as an unbound
     * one built from the converter's current reading. A
     * `ClassCastException` from the reading leaves it deregistered only.
     */
    method UnbindConverter(cv: Converter?, now: Reading) returns (r: Result<()>)
      modifies this, if cv == null then {} else {cv} + cv.markup.Keys
      ensures cv == null ==> r == Success(()) && State() == old(State())
      ensures cv != null && r.Failure? ==> r.error == ComponentMismatch && State() == AfterDeregister(old(State()), cv)
      ensures cv != null && r.Success? ==>
                && cv.name in unbound && fresh(unbound[cv.name])
                && State() == AfterUnbind(old(State()), cv, unbound[cv.name])
                && unbound[cv.name].listeners == old(cv.listeners)
      ensures cv != null ==> (r.Failure? <==> now.str.Mismatch? || (now.str.Ok? && now.value.Mismatch?))
      ensures cv != null ==> ReadForNode(cv, now)
      ensures cv != null && old(Valid()) && cv.name in old(names) && old(names[cv.name]) == cv ==> Valid()
      ensures cv != null && old(Valid()) ==> (Valid() <==> DeregisterHarmless(old(State()), cv))
    {
      if cv == null {
        return Success(());
      }
      ghost var before := State();
      r := UnbindPresent(cv, now);
      if Consistent(before) {
        if r.Failure? {
          DeregisterConsistentExactly(before, cv);
        } else {
          UnbindConsistentExactly(before, cv, unbound[cv.name]);
        }
      }
    }

    /** `unbind(Converter)` on a converter that is not `null`. */
    method UnbindPresent(cv: Converter, now: Reading) returns (r: Result<()>)
      modifies this, cv, cv.markup.Keys
      ensures r.Failure? ==> r.error == ComponentMismatch && State() == AfterDeregister(old(State()), cv)
      ensures r.Success? ==>
                && cv.name in unbound && fresh(unbound[cv.name])
                && State() == AfterUnbind(old(State()), cv, unbound[cv.name])
                && unbound[cv.name].listeners == old(cv.listeners) && unbound[cv.name].name == cv.name
      ensures r.Failure? <==> now.str.Mismatch? || (now.str.Ok? && now.value.Mismatch?)
      ensures ReadForNode(cv, now)
    {
      // The source deregisters first; the node's reads do not look at the maps, so the order is immaterial.
      var node := UnboundNode.FromConverter(cv, now);
      DeregisterConverter(cv);
      if node.Failure? {
        return Failure(node.error);
      }
      unbound := unbound[cv.name := node.value];
      return Success(());
    }

    /** `unbind(String)`: the converter registered under the name, if any. */
    method UnbindName(n: string, now: Reading) returns (r: Result<()>)
      modifies this, if n in names then {names[n]} + names[n].markup.Keys else {}
      ensures n !in old(names) ==> r == Success(()) && State() == old(State())
      ensures n in old(names) && r.Success? ==>
                old(names[n]).name in unbound && State() == AfterUnbind(old(State()), old(names[n]), unbound[old(names[n]).name])
      ensures n in old(names) && r.Failure? ==> State() == AfterDeregister(old(State()), old(names[n]))
      ensures n in old(names) ==> ReadForNode(old(names[n]), now)
      ensures old(Valid()) ==> Valid()
    {
      if n in names {
        r := UnbindConverter(names[n], now);
      } else {
        r := Success(());
      }
    }

    /** `unbind(Component)`: the converter registered for the component, if any. */
    method UnbindComponent(c: Component, now: Reading) returns (r: Result<()>)
      modifies this, if c in components then {components[c]} + components[c].markup.Keys else {}
      ensures c !in old(components) ==> r == Success(()) && State() == old(State())
      ensures c in old(components) && r.Success? ==>
                old(components[c]).name in unbound && State() == AfterUnbind(old(State()), old(components[c]), unbound[old(components[c]).name])
      ensures c in old(components) && r.Failure? ==> State() == AfterDeregister(old(State()), old(components[c]))
      ensures c in old(components) ==> ReadForNode(old(components[c]), now)
      ensures old(Valid()) ==> Valid()
    {
      if c in components {
        r := UnbindConverter(components[c], now);
      } else {
        r := Success(());
      }
    }

    /**
     * `addListener(String, listener)`: to the bound converter, else to the
     * unbound property, else to a new unbound property with a `null` value.
     */
    method AddListenerName(n: string, l: Listener)
      modifies this, if n in names then {names[n]} else if n in unbound then {unbound[n]} else {}
      ensures n in old(names) ==> State() == old(State()) && names[n].listeners == old(names[n].listeners) + {l}
      ensures n !in old(names) && n in old(unbound) ==> State() == old(State()) && unbound[n].listeners == old(unbound[n].listeners) + {l}
      ensures !IsProperty(old(State()), n) ==>
                && n in unbound && fresh(unbound[n])
                && State() == old(State()).(unbound := old(unbound)[n := unbound[n]])
                && unbound[n].name == n && unbound[n].listeners == {l} && unbound[n].value.None? && unbound[n].str.None?
      ensures old(Valid()) ==> Valid()
    {
      if n in names {
        names[n].AddListener(l);
      } else if n in unbound {
        unbound[n].AddListener(l);
      } else {
        var node := new UnboundNode(n, None, None, Some(l));
        unbound := unbound[n := node];
      }
    }

    /** `addListener(Component, listener)`: only a registered component's converter. */
    method AddListenerComponent(c: Component, l: Listener)
      modifies if c in components then {components[c]} else {}
      ensures c in components ==> components[c].listeners == old(components[c].listeners) + {l}
    {
      if c in components {
        components[c].AddListener(l);
      }
    }

    /** `removeListener(String, listener)`: from the bound converter, else from the unbound property. */
    method RemoveListenerName(n: string, l: Listener)
      modifies if n in names then {names[n]} else if n in unbound then {unbound[n]} else {}
      ensures n in names ==> names[n].listeners == old(names[n].listeners) - {l}
      ensures n !in names && n in unbound ==> unbound[n].listeners == old(unbound[n].listeners) - {l}
    {
      if n in names {
        names[n].RemoveListener(l);
      } else if n in unbound {
        unbound[n].RemoveListener(l);
      }
    }

    /** `removeListener(Component, listener)`. */
    method RemoveListenerComponent(c: Component, l: Listener)
      modifies if c in components then {components[c]} else {}
      ensures c in components ==> components[c].listeners == old(components[c].listeners) - {l}
    {
      if c in components {
        components[c].RemoveListener(l);
      }
    }

    /**
     * `get(String)`: an enabled bound property reads its component (with
     * notification; `got` is the translator's outcome); a disabled one gives
     * `null`; an unbound property gives its stored value.
     */
    method GetName(n: string, got: Attempt<Option<Value>>) returns (r: Result<Option<Value>>)
      modifies if n in names then {names[n]} + names[n].markup.Keys else {}
      ensures n in names && old(names[n].IsEnabled()) ==> r == ReadOutcome(got) && (got.Fail? ==> names[n].error)
      ensures n in names && got.Ok? && old(names[n].IsEnabled()) ==> names[n].ChangeNoticed(got.value)
      ensures n in names && !(got.Ok? && old(names[n].IsEnabled())) ==> names[n].Quiet()
      ensures n in names && !old(names[n].IsEnabled()) ==> r == Success(None)
      ensures n !in names && n in unbound ==> r == Success(unbound[n].value)
      ensures !IsProperty(State(), n) ==> r == Success(None)
    {
      if n in names {
        var cv := names[n];
        if cv.IsEnabled() {
          r := cv.ReadValue(true, got);
          return;
        }
      } else if n in unbound {
        return Success(unbound[n].value);
      }
      return Success(None);
    }

    /** `get(Component)`: an enabled registered component is read; anything else gives `null`. */
    method GetComponent(c: Component, got: Attempt<Option<Value>>) returns (r: Result<Option<Value>>)
      modifies if c in components then {components[c]} + components[c].markup.Keys else {}
      ensures c in components && old(components[c].IsEnabled()) ==> r == ReadOutcome(got) && (got.Fail? ==> components[c].error)
      ensures c in components && got.Ok? && old(components[c].IsEnabled()) ==> components[c].ChangeNoticed(got.value)
      ensures c in components && !(got.Ok? && old(components[c].IsEnabled())) ==> components[c].Quiet()
      ensures !(c in components && old(components[c].IsEnabled())) ==> r == Success(None)
    {
      if c in components {
        var cv := components[c];
        if cv.IsEnabled() {
          r := cv.ReadValue(true, got);
          return;
        }
      }
      return Success(None);
    }

    /** `getString(String)`: as `get`, through `readString()`; an unbound property gives its stored string. */
    method GetStringName(n: string, now: Reading) returns (r: Result<Option<string>>)
      modifies if n in names then {names[n]} + names[n].markup.Keys else {}
      ensures n in names && old(names[n].IsEnabled()) ==> r == ReadStringOutcome(now) && (now.str.Fail? ==> names[n].error)
      ensures n in names && old(names[n].IsEnabled()) && now.str.Ok? && now.value.Ok? ==> names[n].ChangeNoticed(now.value.value)
      ensures n in names && !(old(names[n].IsEnabled()) && now.str.Ok? && now.value.Ok?) ==> names[n].Quiet()
      ensures n in names && !old(names[n].IsEnabled()) ==> r == Success(None)
      ensures n !in names && n in unbound ==> r == Success(unbound[n].str)
      ensures !IsProperty(State(), n) ==> r == Success(None)
    {
      if n in names {
        var cv := names[n];
        if cv.IsEnabled() {
          r := cv.ReadString(true, now);
          return;
        }
      } else if n in unbound {
        return Success(unbound[n].str);
      }
      return Success(None);
    }

    /** `getString(Component)`. */
    method GetStringComponent(c: Component, now: Reading) returns (r: Result<Option<string>>)
      modifies if c in components then {components[c]} + components[c].markup.Keys else {}
      ensures c in components && old(components[c].IsEnabled()) ==> r == ReadStringOutcome(now) && (now.str.Fail? ==> components[c].error)
      ensures c in components && old(components[c].IsEnabled()) && now.str.Ok? && now.value.Ok? ==> components[c].ChangeNoticed(now.value.value)
      ensures c in components && !(old(components[c].IsEnabled()) && now.str.Ok? && now.value.Ok?) ==> components[c].Quiet()
      ensures !(c in components && old(components[c].IsEnabled())) ==> r == Success(None)
    {
      if c in components {
        var cv := components[c];
        if cv.IsEnabled() {
          r := cv.ReadString(true, now);
          return;
        }
      }
      return Success(None);
    }

    /**
     * `set(String, value, string)`: a bound property writes through its
     * translator (`accepted` says whether it raised a `TranslatorException`),
     * whether or not it is enabled; an unbound property is updated; any other
     * name becomes a new unbound property.
     */
    method SetName(n: string, value: Option<Value>, given: Option<string>, accepted: bool) returns (r: Result<()>)
      modifies this, if n in unbound then {unbound[n]} else {}
      ensures n in old(names) ==> State() == old(State()) && r == (if accepted then Success(()) else Failure(TranslatorFailure))
      ensures n !in old(names) && n in old(unbound) ==>
                && State() == old(State())
                && (r.Failure? <==> value.None? && old(unbound[n].value).None?)
                && (r.Failure? ==> r.error == NullPointer(""))
                && (r.Success? ==> unbound[n].value == value && unbound[n].listeners == old(unbound[n].listeners))
                && (r.Success? ==> unbound[n].str == if value == old(unbound[n].value) then old(unbound[n].str) else StringFor(value, given))
                && (r.Success? ==> Announced(old(unbound[n].notified), unbound[n].notified, unbound[n].listeners, unbound[n].name, old(unbound[n].value), value))
                && (r.Failure? ==> unbound[n].value == old(unbound[n].value) && unbound[n].str == old(unbound[n].str))
                && (r.Failure? ==> unbound[n].notified == old(unbound[n].notified))
      ensures !IsProperty(old(State()), n) ==>
                && r == Success(()) && n in unbound && fresh(unbound[n])
                && State() == old(State()).(unbound := old(unbound)[n := unbound[n]])
                && unbound[n].name == n && unbound[n].value == value && unbound[n].str == StringFor(value, given)
                && unbound[n].listeners == {} && unbound[n].notified == []
      ensures old(Valid()) ==> Valid()
    {
      if n in names {
        r := names[n].WriteValue(value, accepted);
      } else if n in unbound {
        r := unbound[n].SetValue(value, given);
      } else {
        var node := new UnboundNode(n, value, given, None);
        unbound := unbound[n := node];
        r := Success(());
      }
    }

    /** `set(Component, value)`: only a registered component is written. */
    method SetComponent(c: Component, value: Option<Value>, accepted: bool) returns (r: Result<()>)
      ensures r == (if c in components && !accepted then Failure(TranslatorFailure) else Success(()))
    {
      if c in components {
        r := components[c].WriteValue(value, accepted);
      } else {
        r := Success(());
      }
    }

    /** `check(String, mark)`: `checkValue` of an enabled bound property, else no change. */
    method CheckName(n: string, mark: bool, got: Attempt<Option<Value>>) returns (r: Result<bool>)
      modifies if n in names then {names[n]} + names[n].markup.Keys else {}
      ensures n in names && old(names[n].IsEnabled()) && !got.Mismatch? ==> r == Success(got.Ok? && got.value != old(names[n].previousValue))
      ensures n in names && old(names[n].IsEnabled()) && got.Mismatch? ==> r == Failure(ComponentMismatch)
      ensures n in names && old(names[n].IsEnabled()) && got.Fail? && mark ==> names[n].error
      ensures n in names && old(names[n].IsEnabled()) && got.Ok? ==> names[n].ChangeNoticed(got.value)
      ensures n in names && !(old(names[n].IsEnabled()) && got.Ok?) ==> names[n].Quiet()
      ensures !(n in names && old(names[n].IsEnabled())) ==> r == Success(false)
    {
      if n in names {
        var cv := names[n];
        if cv.IsEnabled() {
          r := cv.CheckValue(mark, got);
          return;
        }
      }
      return Success(false);
    }

    /** `check(Component, mark)`. */
    method CheckComponent(c: Component, mark: bool, got: Attempt<Option<Value>>) returns (r: Result<bool>)
      modifies if c in components then {components[c]} + components[c].markup.Keys else {}
      ensures c in components && old(components[c].IsEnabled()) && !got.Mismatch? ==> r == Success(got.Ok? && got.value != old(components[c].previousValue))
      ensures c in components && old(components[c].IsEnabled()) && got.Mismatch? ==> r == Failure(ComponentMismatch)
      ensures c in components && old(components[c].IsEnabled()) && got.Fail? && mark ==> components[c].error
      ensures c in components && old(components[c].IsEnabled()) && got.Ok? ==> components[c].ChangeNoticed(got.value)
      ensures c in components && !(old(components[c].IsEnabled()) && got.Ok?) ==> components[c].Quiet()
      ensures !(c in components && old(components[c].IsEnabled())) ==> r == Success(false)
    {
      if c in components {
        var cv := components[c];
        if cv.IsEnabled() {
          r := cv.CheckValue(mark, got);
          return;
        }
      }
      return Success(false);
    }

    /** `clearErrors(String)`. */
    method ClearErrorsName(n: string)
      modifies if n in names then {names[n]} + names[n].markup.Keys else {}
      ensures n in names ==> names[n].ErrorCleared()
    {
      if n in names {
        names[n].ClearError();
      }
    }

    /** `clearErrors(Component)`. */
    method ClearErrorsComponent(c: Component)
      modifies if c in components then {components[c]} + components[c].markup.Keys else {}
      ensures c in components ==> components[c].ErrorCleared()
    {
      if c in components {
        components[c].ClearError();
      }
    }

    /** `clearErrors()`: every converter of the component map clears its error. */
    method ClearErrors()
      modifies components.Values, MarkedUp(components.Values)
      ensures forall cv :: cv in components.Values ==> !cv.error && cv.markup == old(cv.markup)
      ensures forall cv :: cv in components.Values ==> cv.previousValue == old(cv.previousValue) && cv.notified == old(cv.notified)
      ensures Enabled(components.Values) == old(Enabled(components.Values)) && MarkedUp(components.Values) == old(MarkedUp(components.Values))
    {
      var todo := components.Values;
      while todo != {}
        invariant todo <= components.Values
        invariant forall cv :: cv in components.Values ==> cv.markup == old(cv.markup)
        invariant forall cv :: cv in components.Values - todo ==> !cv.error
        invariant forall cv :: cv in components.Values ==> cv.previousValue == old(cv.previousValue) && cv.notified == old(cv.notified)
        invariant Enabled(components.Values) == old(Enabled(components.Values)) && MarkedUp(components.Values) == old(MarkedUp(components.Values))
        decreases todo
      {
        var cv :| cv in todo;
        ClearOne(cv, components.Values);
        todo := todo - {cv};
      }
    }

    /**
     * `check(mark)`: `checkValue(mark)` on every enabled converter of the name
     * map (none is skipped once a change is found); `got` is each one's
     * translator outcome. A `ClassCastException` stops the scan.
     */
    method CheckAll(mark: bool, got: Converter -> Attempt<Option<Value>>) returns (r: Result<bool>)
      modifies names.Values, MarkedUp(names.Values)
      ensures r.Success? <==> forall cv :: cv in old(Enabled(names.Values)) ==> !got(cv).Mismatch?
      ensures r.Failure? ==> r.error == ComponentMismatch
      ensures r.Success? ==> (r.value <==> exists cv :: cv in old(Enabled(names.Values)) && got(cv).Ok? && got(cv).value != old(cv.previousValue))
      ensures r.Success? ==> forall cv :: cv in names.Values ==>
                cv.error == (old(cv.error) || (mark && cv in old(Enabled(names.Values)) && got(cv).Fail?))
      ensures r.Success? ==> forall cv :: cv in names.Values ==>
                Rechecked(cv, cv in old(Enabled(names.Values)), got(cv), old(cv.previousValue), old(cv.notified))
      ensures !mark ==> forall cv :: cv in names.Values ==> cv.error == old(cv.error)
      ensures Enabled(names.Values) == old(Enabled(names.Values)) && MarkedUp(names.Values) == old(MarkedUp(names.Values))
    {
      ghost var prev := map cv | cv in names.Values :: cv.previousValue;
      ghost var heard := map cv | cv in names.Values :: cv.notified;
      ghost var errs := map cv | cv in names.Values :: cv.error;
      var stop, any := CheckScan(mark, got, Enabled(names.Values), prev, heard, errs, MarkedUp(names.Values));
      if stop {
        return Failure(ComponentMismatch);
      }
      assert Enabled(names.Values) * names.Values == Enabled(names.Values);
      return Success(any);
    }

    /**
     * What `check(mark)` leaves behind after the converters `visited`,
     * starting from errors `errs`, values `prev` and logs `heard`: the same
     * converters are enabled and marked up, and each converter is as
     * `Tracked` says.
     */
    ghost predicate CheckFrame(mark: bool, got: Converter -> Attempt<Option<Value>>, enabled: set<Converter>,
                               prev: map<Converter, Option<Value>>, heard: map<Converter, seq<Event>>,
                               errs: map<Converter, bool>, marked: set<Component>, visited: set<Converter>)
      reads this, names.Values, set cv | cv in names.Values :: cv.component
    {
      && errs.Keys == names.Values && prev.Keys == names.Values && heard.Keys == names.Values
      && Enabled(names.Values) == enabled && MarkedUp(names.Values) == marked
      && (forall cv :: cv in names.Values ==>
            Tracked(cv, mark, cv in enabled && cv in visited, got(cv), errs[cv], prev[cv], heard[cv]))
    }

    /**
     * What `check(mark)` has found among the converters `visited`: no
     * `ClassCastException`, and `any` exactly when some enabled one changed
     * from its previous value in `prev`.
     */
    ghost predicate Checking(got: Converter -> Attempt<Option<Value>>, enabled: set<Converter>,
                             prev: map<Converter, Option<Value>>, visited: set<Converter>, any: bool)
      reads this
    {
      && visited <= names.Values && prev.Keys == names.Values
      && (forall cv :: cv in enabled * visited ==> !got(cv).Mismatch?)
      && (any <==> exists cv :: cv in enabled * visited && got(cv).Ok? && got(cv).value != prev[cv])
    }

    /** The scan of `check(mark)`: every enabled converter is checked, until a `ClassCastException` (`stop`). */
    method CheckScan(mark: bool, got: Converter -> Attempt<Option<Value>>, ghost enabled: set<Converter>,
                     ghost prev: map<Converter, Option<Value>>, ghost heard: map<Converter, seq<Event>>,
                     ghost errs: map<Converter, bool>, ghost marked: set<Component>)
        returns (stop: bool, any: bool)
      requires CheckFrame(mark, got, enabled, prev, heard, errs, marked, {}) && Checking(got, enabled, prev, {}, false)
      modifies names.Values, marked
      ensures stop <==> exists cv :: cv in enabled && got(cv).Mismatch?
      ensures Enabled(names.Values) == enabled && MarkedUp(names.Values) == marked
      ensures !mark ==> forall cv :: cv in names.Values ==> cv.error == errs[cv]
      ensures !stop ==> CheckFrame(mark, got, enabled, prev, heard, errs, marked, names.Values) && Checking(got, enabled, prev, names.Values, any)
    {
      any := false;
      ghost var visited: set<Converter> := {};
      var todo := names.Values;
      while todo != {}
        invariant todo !! visited && todo + visited == names.Values
        invariant CheckFrame(mark, got, enabled, prev, heard, errs, marked, visited) && Checking(got, enabled, prev, visited, any)
        decreases todo
      {
        var cv :| cv in todo;
        stop, any := CheckStep(cv, mark, got, enabled, prev, heard, errs, marked, visited, any);
        if stop {
          return;
        }
        visited := visited + {cv};
        todo := todo - {cv};
      }
      assert enabled * visited == enabled;
      stop := false;
    }

    /** One converter of `check(mark)`: `checkValue(mark)` if it is enabled. */
    method CheckStep(cv: Converter, mark: bool, got: Converter -> Attempt<Option<Value>>, ghost enabled: set<Converter>,
                     ghost prev: map<Converter, Option<Value>>, ghost heard: map<Converter, seq<Event>>,
                     ghost errs: map<Converter, bool>, ghost marked: set<Component>, ghost visited: set<Converter>, any: bool)
        returns (stop: bool, any': bool)
      requires cv in names.Values && cv !in visited
      requires CheckFrame(mark, got, enabled, prev, heard, errs, marked, visited) && Checking(got, enabled, prev, visited, any)
      modifies cv, cv.markup.Keys
      ensures stop <==> cv in enabled && got(cv).Mismatch?
      ensures CheckFrame(mark, got, enabled, prev, heard, errs, marked, visited + {cv})
      ensures !stop ==> Checking(got, enabled, prev, visited + {cv}, any')
    {
      VisitOne(enabled, visited, cv);
      if cv.IsEnabled() {
        stop, any' := CheckEnabled(cv, mark, got, enabled, prev, heard, errs, marked, visited, any);
      } else {
        stop, any' := false, any;
      }
    }

    /** `checkValue(mark)` on an enabled converter of `check(mark)`. */
    method CheckEnabled(cv: Converter, mark: bool, got: Converter -> Attempt<Option<Value>>, ghost enabled: set<Converter>,
                        ghost prev: map<Converter, Option<Value>>, ghost heard: map<Converter, seq<Event>>,
                        ghost errs: map<Converter, bool>, ghost marked: set<Component>, ghost visited: set<Converter>, any: bool)
        returns (stop: bool, any': bool)
      requires cv in names.Values && cv !in visited && cv in enabled
      requires CheckFrame(mark, got, enabled, prev, heard, errs, marked, visited) && Checking(got, enabled, prev, visited, any)
      requires enabled * (visited + {cv}) == enabled * visited + {cv}
      modifies cv, cv.markup.Keys
      ensures stop <==> got(cv).Mismatch?
      ensures CheckFrame(mark, got, enabled, prev, heard, errs, marked, visited + {cv})
      ensures !stop ==> Checking(got, enabled, prev, visited + {cv}, any')
    {
      var changed := CheckOne(cv, mark, got(cv), names.Values);
      stop := changed.Failure?;
      any' := if changed.Success? then any || changed.value else any;
    }

    /**
     * `importConfig(properties, strict)`: `set(name, value, null)` for every
     * entry, where `accepted(name)` says whether a bound property's
     * translator takes its value. Rejections are counted and, when `strict`,
     * reported together at the end; a `NullPointerException` from an unbound
     * property (`null` over `null`) stops the import. The result says
     * whether every bound property was written.
     */
    method ImportConfig(properties: map<string, Option<Value>>, strict: bool, accepted: string -> bool) returns (r: Result<bool>)
      requires Valid()
      modifies this, unbound.Values
      ensures Valid() && names == old(names) && components == old(components)
      ensures forall n :: n in old(unbound) ==> n in unbound && unbound[n] == old(unbound[n])
      ensures r == Failure(NullPointer("")) <==> exists n :: n in properties && NullOverNull(old(Nodes()), properties, names.Keys, n)
      ensures r.Success? || r.error.Failures? ==> Nodes() == Imported(old(Nodes()), properties, properties.Keys, names.Keys)
      ensures r.Success? || r.error.Failures? ==> ImportHeard(old(Nodes()), old(Heard()), properties, properties.Keys, names.Keys, Heard())
      ensures r.Failure? && r.error.Failures? <==>
                r != Failure(NullPointer("")) && strict && |Rejected(properties.Keys, names.Keys, accepted)| > 0
      ensures r.Failure? && r.error.Failures? ==> r.error.count == |Rejected(properties.Keys, names.Keys, accepted)|
      ensures r.Success? ==> (r.value <==> names.Keys <= Written(properties.Keys, names.Keys, accepted))
    {
      var npe, failedNames, writtenNames := ImportAll(properties, accepted);
      if npe {
        return Failure(NullPointer(""));
      }
      var failed := |failedNames|;
      var fieldCount := |writtenNames|;
      if strict && failed > 0 {
        return Failure(Failures(failed));
      }
      CountsMatchOnlyWhenAll(writtenNames, names.Keys);
      return Success(fieldCount == |names|);
    }

    /**
     * The loop of `importConfig`: every entry is set, until one throws a
     * `NullPointerException` (`npe`). The bound names whose write was
     * rejected and those written are collected; as each name is set once,
     * their sizes are the loop's two counters.
     */
    method ImportAll(properties: map<string, Option<Value>>, accepted: string -> bool)
        returns (npe: bool, failedNames: set<string>, writtenNames: set<string>)
      requires Valid()
      modifies this, unbound.Values
      ensures Valid() && names == old(names) && components == old(components)
      ensures forall n :: n in old(unbound) ==> n in unbound && unbound[n] == old(unbound[n])
      ensures npe <==> exists n :: n in properties && NullOverNull(old(Nodes()), properties, names.Keys, n)
      ensures !npe ==> Importing(properties, accepted, old(unbound), old(Nodes()), old(Heard()), properties.Keys)
      ensures !npe ==> failedNames == Rejected(properties.Keys, names.Keys, accepted)
      ensures !npe ==> writtenNames == Written(properties.Keys, names.Keys, accepted)
    {
      failedNames := {};
      writtenNames := {};
      ghost var u0 := unbound;
      ghost var nodes := Nodes();
      ghost var heard := Heard();
      ghost var visited: set<string> := {};
      var todo := properties.Keys;
      while todo != {}
        invariant todo !! visited && todo + visited == properties.Keys
        invariant names == old(names) && components == old(components)
        invariant Importing(properties, accepted, u0, nodes, heard, visited)
        invariant failedNames == Rejected(visited, names.Keys, accepted) && writtenNames == Written(visited, names.Keys, accepted)
        decreases todo
      {
        var n :| n in todo;
        var outcome := ImportStep(properties, accepted, n, u0, nodes, heard, visited);
        if outcome.Failure? && outcome.error.NullPointer? {
          npe := true;
          return;
        }
        CountStep(visited, names.Keys, accepted, n, failedNames, writtenNames);
        if outcome.Failure? {
          failedNames := failedNames + {n};
        } else if n in names {
          writtenNames := writtenNames + {n};
        }
        visited := visited + {n};
        todo := todo - {n};
      }
      npe := false;
    }

    /**
     * `importConfig` after setting the `visited` entries, starting from the
     * unbound properties `u0` with fields `nodes` and logs `heard`: the maps
     * are still consistent, the old unbound properties are the same objects,
     * the unbound fields are as `Imported` says and their logs as
     * `ImportHeard` says, and no visited entry threw.
     */
    ghost predicate Importing(properties: map<string, Option<Value>>, accepted: string -> bool, u0: map<string, UnboundNode>,
                              nodes: map<string, NodeState>, heard: map<string, seq<Event>>, visited: set<string>)
      reads this, unbound.Values
    {
      && Valid() && visited <= properties.Keys && nodes.Keys == u0.Keys
      && (forall n :: n in u0 ==> n in unbound && unbound[n] == u0[n])
      && Nodes() == Imported(nodes, properties, visited, names.Keys)
      && ImportHeard(nodes, heard, properties, visited, names.Keys, Heard())
      && (forall n :: n in visited ==> !NullOverNull(nodes, properties, names.Keys, n))
    }

    /** One iteration of `importConfig`: set entry `n`; `Failure(NullPointer)` is the one outcome that stops the loop. */
    method ImportStep(properties: map<string, Option<Value>>, accepted: string -> bool, n: string, ghost u0: map<string, UnboundNode>,
                      ghost nodes: map<string, NodeState>, ghost heard: map<string, seq<Event>>, ghost visited: set<string>) returns (r: Result<()>)
      requires n in properties && n !in visited
      requires Importing(properties, accepted, u0, nodes, heard, visited)
      modifies this, if n in u0 then {u0[n]} else {}
      ensures Valid() && names == old(names) && components == old(components)
      ensures forall m :: m in u0 ==> m in unbound && unbound[m] == u0[m]
      ensures r.Failure? && r.error.NullPointer? <==> NullOverNull(nodes, properties, names.Keys, n)
      ensures r.Failure? && !r.error.NullPointer? <==> n in names && !accepted(n)
      ensures !(r.Failure? && r.error.NullPointer?) ==> Importing(properties, accepted, u0, nodes, heard, visited + {n})
    {
      ImportedStep(nodes, properties, visited, names.Keys, n);
      r := ImportEntry(properties, accepted, n);
      if !(r.Failure? && r.error.NullPointer?) {
        ImportHeardStep(nodes, heard, properties, visited, names.Keys, n, old(Heard()), old(Nodes()), Heard());
      }
    }

    /** The mutable fields of every unbound property, by name. */
    ghost function Nodes(): (m: map<string, NodeState>)
      reads this, unbound.Values
      ensures m.Keys == unbound.Keys
    {
      map n | n in unbound :: NodeState(unbound[n].value, unbound[n].str, unbound[n].listeners)
    }

    /** The notification log of every unbound property, by name. */
    ghost function Heard(): (m: map<string, seq<Event>>)
      reads this, unbound.Values
      ensures m.Keys == unbound.Keys
    {
      map n | n in unbound :: unbound[n].notified
    }

    /** One entry of `importConfig`: `set(name, value, null)`, its effect on the unbound properties stated by name. */
    method ImportEntry(properties: map<string, Option<Value>>, accepted: string -> bool, n: string) returns (r: Result<()>)
      requires n in properties && Valid()
      modifies this, if n in unbound then {unbound[n]} else {}
      ensures Valid() && names == old(names) && components == old(components)
      ensures forall m :: m in old(unbound) ==> m in unbound && unbound[m] == old(unbound[m])
      ensures n in names ==> Nodes() == old(Nodes()) && Heard() == old(Heard())
      ensures n in names ==> (r.Success? <==> accepted(n)) && (r.Failure? ==> r.error == TranslatorFailure)
      ensures n !in names ==> (r.Failure? <==> NullOverNull(old(Nodes()), properties, names.Keys, n))
      ensures n !in names && r.Failure? ==> r.error == NullPointer("")
      ensures n !in names && r.Success? ==> Nodes() == old(Nodes())[n := SetNode(Lookup(old(Nodes()), n), properties[n])]
      ensures n !in names && r.Success? ==> SetHeard(old(Heard()), old(Nodes()), n, properties[n], Heard())
    {
      if n in unbound {
        forall m | m in unbound && m != n
          ensures unbound[m] != unbound[n]
        {
          assert unbound[m].name == m && unbound[n].name == n;
        }
      }
      r := SetName(n, properties[n], None, accepted(n));
      if n !in names && r.Success? {
        OthersUntouched(n);
      }
    }

    /** Only the unbound property `n` may have changed or appeared: every other one keeps its fields and its log. */
    twostate lemma OthersUntouched(n: string)
      requires unbound.Keys == old(unbound.Keys) + {n}
      requires forall m :: m in old(unbound) && m != n ==>
                 && unbound[m] == old(unbound[m])
                 && unbound[m].value == old(unbound[m].value) && unbound[m].str == old(unbound[m].str)
                 && unbound[m].listeners == old(unbound[m].listeners) && unbound[m].notified == old(unbound[m].notified)
      ensures Nodes() == old(Nodes())[n := Nodes()[n]]
      ensures Heard() == old(Heard())[n := Heard()[n]]
    {
      var nodes, heard := Nodes(), Heard();
      var nodes0, heard0 := old(Nodes()), old(Heard());
      assert forall m :: m in nodes0 && m != n ==> nodes[m] == nodes0[m] && heard[m] == heard0[m];
    }

    /**
     * `export(result, strings, notify)` into an empty map, where `outcomes`
     * gives each converter's translator outcomes. Errors are cleared first;
     * every enabled converter is read without notification. A
     * `TranslatorComponentException` skips the field, a plain
     * `ClassCastException` stops the export, and `TranslatorException`s are
     * counted and reported together, before any unbound property is added
     * and before anyone is notified. Otherwise `check(false)` runs when
     * `notify` is set, and the unbound properties are added.
     */
    method Export(strings: bool, notify: bool, outcomes: Converter -> Reading) returns (r: Result<map<string, Option<Value>>>)
      requires Valid()
      modifies components.Values, MarkedUp(components.Values)
      ensures var enabled := old(Enabled(components.Values));
        && (ExportAborts(enabled, strings, outcomes) ==> r == Failure(ComponentMismatch))
        && (!ExportAborts(enabled, strings, outcomes) && |FailedReads(enabled, strings, outcomes)| > 0 ==>
              && r == Failure(Failures(|FailedReads(enabled, strings, outcomes)|))
              && forall cv :: cv in components.Values ==> cv.notified == old(cv.notified) && cv.previousValue == old(cv.previousValue))
        && (!ExportAborts(enabled, strings, outcomes) && FailedReads(enabled, strings, outcomes) == {} && notify && RecheckAborts(enabled, outcomes) ==>
              r == Failure(ComponentMismatch))
        && (!ExportAborts(enabled, strings, outcomes) && FailedReads(enabled, strings, outcomes) == {} && !(notify && RecheckAborts(enabled, outcomes)) ==>
              && r == Success(BoundExport(names, enabled, strings, outcomes) + UnboundExport(unbound, strings))
              && (forall cv :: cv in components.Values ==> !cv.error)
              && forall cv :: cv in components.Values ==>
                   Rechecked(cv, notify && cv in enabled, outcomes(cv).value, old(cv.previousValue), old(cv.notified)))
    {
      ghost var enabled := Enabled(components.Values);
      var abort, failedSet, result := ExportRead(strings, outcomes);
      if abort {
        return Failure(ComponentMismatch);
      }
      var failed := |failedSet|;
      if failed > 0 {
        return Failure(Failures(failed));
      }
      if notify {
        var checked := CheckAll(false, (cv: Converter) => outcomes(cv).value);
        if checked.Failure? {
          return Failure(checked.error);
        }
      }
      result := AddUnbound(result, strings);
      r := Success(result);
    }

    /**
     * The part of `export` before any notification: errors are cleared and
     * every enabled converter is read, until a plain `ClassCastException`
     * (`abort`); the failed reads and the bound values read are returned.
     */
    method ExportRead(strings: bool, outcomes: Converter -> Reading) returns (abort: bool, failedSet: set<Converter>, result: map<string, Option<Value>>)
      requires Valid()
      modifies components.Values, MarkedUp(components.Values)
      ensures abort <==> ExportAborts(old(Enabled(components.Values)), strings, outcomes)
      ensures !abort ==> failedSet == FailedReads(old(Enabled(components.Values)), strings, outcomes)
      ensures !abort ==> result == BoundExport(names, old(Enabled(components.Values)), strings, outcomes)
      ensures !abort ==> forall cv :: cv in components.Values ==>
                cv.notified == old(cv.notified) && cv.previousValue == old(cv.previousValue) && (cv.error ==> cv in failedSet)
      ensures !abort ==> names.Values == components.Values
      ensures !abort ==> Enabled(names.Values) == old(Enabled(components.Values)) && MarkedUp(names.Values) == old(MarkedUp(components.Values))
    {
      SameConverters(State());
      ClearErrors();
      abort, failedSet, result := ExportScan(strings, outcomes, Enabled(components.Values), MarkedUp(components.Values));
    }

    /**
     * How far `export`'s scan has got over the converters `visited`: the maps
     * are consistent, the same converters are enabled and marked up as at the
     * start, nobody has been notified and no value recorded (`heard` is what
     * each converter's listeners had heard, `prevs` each one's previous
     * value), only failed reads have marked an error, and the
     * result, the failures and the abort are those of the enabled converters
     * visited.
     */
    ghost predicate Scanning(enabled: set<Converter>, strings: bool, outcomes: Converter -> Reading,
                             heard: map<Converter, seq<Event>>, prevs: map<Converter, Option<Value>>, marked: set<Component>,
                             visited: set<Converter>, failedSet: set<Converter>, result: map<string, Option<Value>>)
      reads this, components.Values, set cv | cv in components.Values :: cv.component
    {
      && Valid() && visited <= components.Values && heard.Keys == components.Values && prevs.Keys == components.Values
      && components.Values == names.Values
      && Enabled(components.Values) == enabled && MarkedUp(components.Values) == marked
      && (forall cv :: cv in components.Values ==> cv.notified == heard[cv] && cv.previousValue == prevs[cv])
      && (forall cv :: cv in components.Values && cv.error ==> cv in failedSet)
      && failedSet == FailedReads(enabled * visited, strings, outcomes)
      && !ExportAborts(enabled * visited, strings, outcomes)
      && result == BoundExport(names, enabled * visited, strings, outcomes)
    }

    /**
     * The scan of `export`, once the errors are cleared: every enabled
     * converter is read, until a plain `ClassCastException` (`abort`).
     */
    method ExportScan(strings: bool, outcomes: Converter -> Reading, ghost enabled: set<Converter>, ghost marked: set<Component>)
        returns (abort: bool, failedSet: set<Converter>, result: map<string, Option<Value>>)
      requires Valid() && names.Values == components.Values
      requires Enabled(components.Values) == enabled && MarkedUp(components.Values) == marked
      requires forall cv :: cv in components.Values ==> !cv.error
      modifies components.Values, marked
      ensures abort <==> ExportAborts(enabled, strings, outcomes)
      ensures !abort ==> failedSet == FailedReads(enabled, strings, outcomes)
      ensures !abort ==> result == BoundExport(names, enabled, strings, outcomes)
      ensures !abort ==> forall cv :: cv in components.Values ==>
                cv.notified == old(cv.notified) && cv.previousValue == old(cv.previousValue) && (cv.error ==> cv in failedSet)
      ensures !abort ==> names.Values == components.Values
      ensures !abort ==> Enabled(names.Values) == enabled && MarkedUp(names.Values) == marked
    {
      ghost var heard := map cv | cv in components.Values :: cv.notified;
      ghost var prevs := map cv | cv in components.Values :: cv.previousValue;
      NothingScanned(names, enabled, strings, outcomes);
      failedSet := {};
      result := map[];
      ghost var visited: set<Converter> := {};
      var todo := components.Values;
      while todo != {}
        invariant todo !! visited && todo + visited == components.Values
        invariant Scanning(enabled, strings, outcomes, heard, prevs, marked, visited, failedSet, result)
        decreases todo
      {
        var cv :| cv in todo;
        abort, failedSet, result := ExportStep(cv, strings, outcomes, enabled, heard, prevs, marked, visited, failedSet, result);
        if abort {
          return;
        }
        visited := visited + {cv};
        todo := todo - {cv};
      }
      assert enabled * visited == enabled;
      abort := false;
    }

    /**
     * One converter of `export`'s scan: if it is enabled, `readString(false)`
     * or `readValue(false)`; a value goes into the result, a
     * `TranslatorException` into the failures, a tagged
     * `TranslatorComponentException` is skipped and a plain
     * `ClassCastException` aborts.
     */
    method ExportStep(cv: Converter, strings: bool, outcomes: Converter -> Reading, ghost enabled: set<Converter>,
                      ghost heard: map<Converter, seq<Event>>, ghost prevs: map<Converter, Option<Value>>, ghost marked: set<Component>,
                      ghost visited: set<Converter>,
                      failedSet: set<Converter>, result: map<string, Option<Value>>)
        returns (abort: bool, failedSet': set<Converter>, result': map<string, Option<Value>>)
      requires cv in components.Values && cv !in visited
      requires Scanning(enabled, strings, outcomes, heard, prevs, marked, visited, failedSet, result)
      modifies cv, cv.markup.Keys
      ensures abort <==> cv in enabled && Outcome(outcomes(cv), strings) == Mismatch(false)
      ensures !abort ==> Scanning(enabled, strings, outcomes, heard, prevs, marked, visited + {cv}, failedSet', result')
    {
      ScanStep(names, enabled, visited, cv, strings, outcomes);
      abort, failedSet', result' := false, failedSet, result;
      if cv.IsEnabled() {
        var read := ExportOne(cv, strings, outcomes(cv), components.Values);
        if read.Success? {
          result' := result[cv.name := read.value];
        } else if read.error == ComponentMismatch {
          abort := !Outcome(outcomes(cv), strings).tagged;
        } else {
          failedSet' := failedSet + {cv};
        }
      }
    }

    /** The closing loop of `export`: every unbound property is put into the result. */
    method AddUnbound(m: map<string, Option<Value>>, strings: bool) returns (result: map<string, Option<Value>>)
      ensures result == m + UnboundExport(unbound, strings)
    {
      result := m;
      var todo := unbound.Keys;
      while todo != {}
        invariant todo <= unbound.Keys
        invariant forall n :: n in result <==> n in m || (n in unbound && n !in todo)
        invariant forall n :: n in result ==>
                    result[n] == if n in unbound && n !in todo then UnboundExport(unbound, strings)[n] else m[n]
        decreases todo
      {
        var n :| n in todo;
        result := result[n := if strings then AsObject(unbound[n].str) else unbound[n].value];
        todo := todo - {n};
      }
    }

    /** `exportConfig(notify)`: an export of the values. */
    method ExportConfig(notify: bool, outcomes: Converter -> Reading) returns (r: Result<map<string, Option<Value>>>)
      requires Valid()
      modifies components.Values, MarkedUp(components.Values)
      ensures var enabled := old(Enabled(components.Values));
        !ExportAborts(enabled, false, outcomes) && FailedReads(enabled, false, outcomes) == {} && !(notify && RecheckAborts(enabled, outcomes)) ==>
          r == Success(BoundExport(names, enabled, false, outcomes) + UnboundExport(unbound, false))
      ensures r.Failure? ==> r.error == ComponentMismatch || r.error.Failures?
    {
      r := Export(false, notify, outcomes);
    }

    /** `exportStrings(notify)`: an export of the strings. */
    method ExportStrings(notify: bool, outcomes: Converter -> Reading) returns (r: Result<map<string, Option<Value>>>)
      requires Valid()
      modifies components.Values, MarkedUp(components.Values)
      ensures var enabled := old(Enabled(components.Values));
        !ExportAborts(enabled, true, outcomes) && FailedReads(enabled, true, outcomes) == {} && !(notify && RecheckAborts(enabled, outcomes)) ==>
          r == Success(BoundExport(names, enabled, true, outcomes) + UnboundExport(unbound, true))
      ensures r.Failure? ==> r.error == ComponentMismatch || r.error.Failures?
    {
      r := Export(true, notify, outcomes);
    }
  }
}
