# JForm core in Dafny

JForm binds editor components of a desktop form to named configuration
properties. This project models its bookkeeping core and proves what that
core promises:

- the form manager (`JFormManager`, with its nested `UnboundNode`), a
  registry of *bound* properties (a converter reachable both by its component
  and by its name) and *unbound* properties (a value, its string and a set of
  listeners held by name alone), with per-property access, bulk import,
  export, check and error clearing;
- the converter (`Converter`), which detects changes against the last value
  read, notifies listeners, keeps an error flag and marks up a set of
  components with error colours, restoring their own colours afterwards;
- the converter factory (`ConverterFactory`), which finds the markup
  configuration of a component by walking up its superclass chain, with a
  fixed table of defaults underneath its own mappings;
- the check-box translator (`CheckBoxTranslator`), a two-valued encoder
  between a selection state and a pair of values.

The toolkit is abstract. A component is a small class holding a name, a
class chain (most specific first, ending in `java.awt.Component`), an
enabled flag and two colours. Listeners and translators are opaque
identities. `null` is `None`. Java objects are a `Value` datatype whose
equality plays the part of `equals`.

A translator call is an oracle passed in as a parameter:
`Attempt = Ok(v) | Fail | Mismatch(tagged)`.
- `Fail` is a `TranslatorException`.
- `Mismatch` is a `ClassCastException`; `tagged` marks the
  `TranslatorComponentException` subclass.
- A write is a boolean: whether the translator accepted it.

Every `propertyChange` call is recorded in a ghost log `notified`, so
"notifies each listener once" and "notifies nobody" can be stated.

Modules follow the source files:
- `Base` (`base.dfy`): shared values, colours, events, errors, components.
- `CheckBox` (`checkbox.dfy`): the check-box translator, as pure functions.
- `Converters` (`converter.dfy`): the converter class and the markup table
  functions.
- `Factory` (`factory.dfy`): the factory class and the configuration
  lookup functions.
- `Unbound` (`unbound.dfy`): the unbound property class.
- `Manager` (`manager.dfy`): the manager class and the registry functions.

Quirks of the code are modelled as written:
- `register` mutates both maps before its sanity check throws an
  `InternalError`.
- `UnboundNode.setValue` with `null` over `null` throws a
  `NullPointerException`.
- `export` silently skips a field whose read raises a
  `TranslatorComponentException`.
- `Converter.removeListeners(Collection)` empties its argument and leaves
  the converter's listeners alone.
- `unbind(Converter)` is documented as a no-op for a converter that is not
  registered (`JFormManager.java:486`), but the code (`JFormManager.java:493-499`)
  still removes the converter's name and component from the maps, whoever
  they map to, and adds an unbound property of its name;
  `UnbindConverter` models the code.

`HashMap` and `HashSet` iteration order is unspecified, so each loop over
one picks its next element nondeterministically (`:|`). Every
order-independent claim is proved for all orders.

## Model

| member | source | states |
|---|---|---|
| Base.Notify | src/com/madphysicist/jform/Converter.java:583-593 | the listener loop calls every listener of the set exactly once with the same change, and nobody else |
| CheckBox.FromValues | src/com/madphysicist/jform/translate/CheckBoxTranslator.java:81-92 | the two-argument constructor keeps the values and takes their `toString()` as the strings |
| CheckBox.DefaultInstance | src/com/madphysicist/jform/translate/CheckBoxTranslator.java:55 | the shared instance is over `Boolean.TRUE`/`Boolean.FALSE` with strings "true"/"false" |
| CheckBox.WriteValue | src/com/madphysicist/jform/translate/CheckBoxTranslator.java:114-122 | selects exactly when the value equals the true value or string (that case comes first); deselects exactly when it matches a false case and no true case; throws exactly when it matches neither |
| CheckBox.SelectionAfter | src/com/madphysicist/jform/translate/CheckBoxTranslator.java:114-122 | a rejected write leaves the selection as it was; an accepted one sets it to what `writeValue` chose |
| CheckBox.ReadBackAccepted | src/com/madphysicist/jform/translate/CheckBoxTranslator.java:114-132 | whatever `readValue` or `readString` returns is accepted by `writeValue`, for every translator |
| CheckBox.RoundTrip | src/com/madphysicist/jform/translate/CheckBoxTranslator.java:114-132 | writing back what was read (value or string) restores the selection in both states if and only if the true and false sides are distinct |
| CheckBox.DefaultInstanceRoundTrips | src/com/madphysicist/jform/translate/CheckBoxTranslator.java:55 | the shared Boolean instance round-trips in both selection states |
| Converters.AddMarkup | src/com/madphysicist/jform/Converter.java:438-448 | adding markup keeps a single entry per component, marks the chosen side, keeps the other side and the saved colours, leaves other entries alone and keeps every entry marked |
| Converters.RemoveMarkup | src/com/madphysicist/jform/Converter.java:450-464 | removing one side drops the entry exactly when the other side is unmarked, otherwise unmarks only that side; an absent component is ignored; every entry stays marked |
| Converters.MarkThenRevert | src/com/madphysicist/jform/Converter.java:709-727 | marking a side and then clearing it gives back the colour it showed before; a side recoloured in between with a non-error colour keeps that colour |
| Converters.DiffersIsInequality | src/com/madphysicist/jform/Converter.java:585 | the null-aware change test of `changeValue` is plain inequality of optional values |
| Converters.Converter.constructor | src/com/madphysicist/jform/Converter.java:285-304 | a new converter has no error, is not usable when disabled, has no previous value, empty markup and listeners, and the default error colours |
| Converters.Converter.New | src/com/madphysicist/jform/Converter.java:285-304 | the constructor throws a `NullPointerException` for a null name, component or translator, in that order, and otherwise builds the initial converter |
| Converters.Converter.ForComponent | src/com/madphysicist/jform/Converter.java:265-268 | the two-argument constructor names the property after the component; it throws a `NullPointerException` for a null component, a component without a name or a null translator, in that order, and otherwise builds the same initial converter as `New` (no error, no previous value, no markup, listeners or notifications, the default error colours) |
| Converters.Converter.SetUseableWhenDisabled | src/com/madphysicist/jform/Converter.java:372-393 | sets the flag, after which `isEnabled` is the flag or the component's enabled state |
| Converters.Converter.ClearError | src/com/madphysicist/jform/Converter.java:395-402 | the flag is off; on a real transition each marked side still showing an error colour gets its saved colour back; when already off nothing moves; values and notifications are untouched |
| Converters.Converter.SetError | src/com/madphysicist/jform/Converter.java:404-411 | the flag is on; on a real transition each entry saves its marked sides' colours and shows the error colours; when already on nothing moves; the invariant is kept |
| Converters.Converter.MarkAll | src/com/madphysicist/jform/Converter.java:406-407 | the loop of `setError` saves and marks every entry of the table, whatever the iteration order |
| Converters.Converter.MarkSides | src/com/madphysicist/jform/Converter.java:709-719 | `MarkupNode.setError`: each marked side saves its colour and shows the error colour; unmarked sides are untouched |
| Converters.Converter.RevertSides | src/com/madphysicist/jform/Converter.java:721-727 | `MarkupNode.clearError`: a marked side showing an error colour gets its saved colour; any other side is untouched |
| Converters.Converter.SetErrorForeground | src/com/madphysicist/jform/Converter.java:428-431 | a colour becomes the tagged error colour; `null` throws and changes nothing |
| Converters.Converter.SetErrorBackground | src/com/madphysicist/jform/Converter.java:433-436 | a colour becomes the tagged error colour; `null` throws and changes nothing |
| Converters.Converter.AddForegroundMarkup | src/com/madphysicist/jform/Converter.java:438-448 | the table becomes `AddMarkup` of the foreground side; the invariant is kept |
| Converters.Converter.RemoveForegroundMarkup | src/com/madphysicist/jform/Converter.java:450-464 | the table becomes `RemoveMarkup` of the foreground side; the invariant is kept |
| Converters.Converter.AddBackgroundMarkup | src/com/madphysicist/jform/Converter.java:466-476 | the table becomes `AddMarkup` of the background side; the invariant is kept |
| Converters.Converter.RemoveBackgroundMarkup | src/com/madphysicist/jform/Converter.java:478-492 | the table becomes `RemoveMarkup` of the background side; the invariant is kept |
| Converters.Converter.AddListener | src/com/madphysicist/jform/Converter.java:494-497 | the listener joins the set |
| Converters.Converter.AddListeners | src/com/madphysicist/jform/Converter.java:499-502 | the listeners join the set |
| Converters.Converter.RemoveListener | src/com/madphysicist/jform/Converter.java:504-507 | the listener leaves the set |
| Converters.Converter.RemoveListeners | src/com/madphysicist/jform/Converter.java:509-512 | the argument is emptied and the converter's own listeners stay as they were (the parameter shadows the field) |
| Converters.Converter.RemoveAllListeners | src/com/madphysicist/jform/Converter.java:514-517 | the set is emptied |
| Converters.Converter.ChangeValue | src/com/madphysicist/jform/Converter.java:583-593 | reports a change exactly when the value differs from the previous one; then every listener hears it once and the value is recorded; otherwise nothing happens |
| Converters.Converter.ReadValue | src/com/madphysicist/jform/Converter.java:524-535 | a value is returned and, with `notify`, change-checked, with the error flag untouched; a `TranslatorException` sets the error and is rethrown; a `ClassCastException` passes through with nothing changed |
| Converters.Converter.CheckValue | src/com/madphysicist/jform/Converter.java:560-570 | reports and notifies a real change; a failed read reports no change and sets the error only with `mark`; a `ClassCastException` passes through |
| Converters.Converter.ReadString | src/com/madphysicist/jform/Converter.java:542-553 | the string comes from the translator; a failure sets the error; with `notify`, `checkValue(false)` follows and its value read can notify or throw a `ClassCastException` |
| Converters.Converter.WriteValue | src/com/madphysicist/jform/Converter.java:555-558 | the write succeeds exactly when the translator accepts it, and notifies nobody |
| Converters.Converter.WriteChecked | src/com/madphysicist/jform/Converter.java:572-576 | a rejected write throws and changes nothing; an accepted one is followed by `checkValue(mark)`: a value read notifies as `changeValue` does, a failed read notifies nobody and sets the error only with `mark`, a `ClassCastException` is passed on with nothing notified; except for a marked failure the error flag and every colour are untouched |
| Converters.SilentReadKeepsChangePending | src/com/madphysicist/jform/Converter.java:524-570 | after `readValue(false)` of a new value, `checkValue` still reports the change |
| Converters.RepeatedChangeIsQuiet | src/com/madphysicist/jform/Converter.java:583-593 | a second `changeValue` with the value just recorded returns false and notifies nobody: over both calls the listeners hear exactly what the first call announced |
| Converters.MarkThenClearRestores | src/com/madphysicist/jform/Converter.java:395-411 | `setError` then `clearError`, with no one touching the colours in between, restores every marked-up component's colours |
| Factory.StockConfigurations | src/com/madphysicist/jform/ConverterFactory.java:132-157 | `CONFIG_FOREGROUND`, `CONFIG_BACKGROUND` and `CONFIG_BOTH` mark the given component alone, on the foreground, the background or both |
| Factory.DefaultConfigs | src/com/madphysicist/jform/ConverterFactory.java:449-476 | the default table maps `Component` to `CONFIG_BOTH` |
| Factory.GetValue | src/com/madphysicist/jform/ConverterFactory.java:416-421 | the factory's own mapping (even a registered `null`) wins over the default; the result is null exactly when neither map has one or `null` was registered |
| Factory.FindConfiguration | src/com/madphysicist/jform/ConverterFactory.java:391-403 | the walk always finds a configuration when the defaults map `Component` |
| Factory.MostSpecificWins | src/com/madphysicist/jform/ConverterFactory.java:393-401 | the most specific type of the chain that has any mapping decides; subclass mappings shadow superclass ones |
| Factory.FallsBackToComponent | src/com/madphysicist/jform/ConverterFactory.java:391-403 | with no mapping below `Component`, the default for `Component` is used |
| Factory.ComponentMappingIgnored | src/com/madphysicist/jform/ConverterFactory.java:391-403 | a factory's own mapping for `Component` is never consulted |
| Factory.NullRegistrationFallsThrough | src/com/madphysicist/jform/ConverterFactory.java:391-421 | registering `null` for a type hides that type's default; the walk goes on to the superclass |
| Factory.AddAllMarks | src/com/madphysicist/jform/ConverterFactory.java:359-368 | adding a list marks the chosen side of every listed component, adds no other entry, keeps every unlisted entry and unmarks nothing |
| Factory.ConfiguredIsMarked | src/com/madphysicist/jform/ConverterFactory.java:353-375 | configuring keeps every markup entry marked on some side |
| Factory.ConverterFactory.constructor | src/com/madphysicist/jform/ConverterFactory.java:198-201 | a new factory has no mappings of its own |
| Factory.ConverterFactory.ConfigurationFor | src/com/madphysicist/jform/ConverterFactory.java:391-403 | the configuration used is the one the chain walk finds over this factory's mappings and the defaults |
| Factory.ConverterFactory.RegisterConfiguration | src/com/madphysicist/jform/ConverterFactory.java:317-320 | overwrites the mapping for exactly this type; the defaults are untouched |
| Factory.ConverterFactory.AddEach | src/com/madphysicist/jform/ConverterFactory.java:359-368 | one loop of `configureComponent`: the table becomes the list added in order; a null or empty list adds nothing |
| Factory.ConverterFactory.ConfigureComponent | src/com/madphysicist/jform/ConverterFactory.java:353-375 | the component's own configuration is applied, foregrounds then backgrounds, then a non-null label's configuration once |
| Factory.ConverterFactory.GetConverter | src/com/madphysicist/jform/ConverterFactory.java:222-226 | the constructor's null checks (name, component, translator, in that order), then a fresh valid converter with that translator, no error, no previous value, no listeners or notifications, the default error colours, not usable when disabled, and exactly the configured markup |
| Factory.ConverterFactory.GetComponentConverter | src/com/madphysicist/jform/ConverterFactory.java:250-254 | as `getConverter`, with the property named after the component: null component, nameless component and null translator each throw, and the converter built is the same |
| Unbound.StringFor | src/com/madphysicist/jform/JFormManager.java:1947-1956 | the string is the given one, else the value's `toString()`, else `null` for a `null` value |
| Unbound.UnboundNode.constructor | src/com/madphysicist/jform/JFormManager.java:1782-1794 | the node holds the value, its `updateValue` string and the listener if one is given |
| Unbound.UnboundNode.FromConverter | src/com/madphysicist/jform/JFormManager.java:1810-1822 | the node takes the read string and value; if the string read fails both are `null`; if only the value read fails the value is the string; a `ClassCastException` passes through; the listeners are copied; the converter itself is left as `ReadForNode` says: two good reads notify as one `changeValue`, a failed read marks the error and notifies nobody, a `ClassCastException` changes nothing |
| Unbound.UnboundNode.SetValue | src/com/madphysicist/jform/JFormManager.java:1874-1882 | `null` over `null` throws and changes nothing; an equal value changes nothing and notifies nobody; a different one notifies every listener once with the old and new value and updates value and string |
| Unbound.UnboundNode.AddListener | src/com/madphysicist/jform/JFormManager.java:1891-1894 | the listener joins the set |
| Unbound.UnboundNode.RemoveListener | src/com/madphysicist/jform/JFormManager.java:1903-1906 | the listener leaves the set |
| Unbound.UnboundNode.Bind | src/com/madphysicist/jform/JFormManager.java:1919-1933 | the converter gains the listeners; a non-null value is written, and on rejection the non-null string; rejections are swallowed |
| Manager.RegisterKeepsConsistency | src/com/madphysicist/jform/JFormManager.java:377-390 | on consistent maps the sanity check passes exactly when the maps left behind are consistent |
| Manager.DeregisterKeepsConsistency | src/com/madphysicist/jform/JFormManager.java:437-443 | deregistering a registered converter keeps the maps consistent, removes both its keys and keeps every other name |
| Manager.DeregisterConsistentExactly | src/com/madphysicist/jform/JFormManager.java:437-443 | on consistent maps, deregistering a converter keeps them consistent exactly when whatever is under its name has its component and whatever is under its component has its name (`DeregisterHarmless`); otherwise some converter keeps one entry and loses the other |
| Manager.UnbindConsistentExactly | src/com/madphysicist/jform/JFormManager.java:493-499 | on consistent maps, unbinding a converter keeps them consistent exactly when deregistering it would |
| Manager.UnbindKeepsConsistency | src/com/madphysicist/jform/JFormManager.java:493-499 | unbinding keeps the maps consistent, keeps the name a property that is no longer bound, and changes no other name's `isProperty` |
| Manager.RegisterThenDeregister | src/com/madphysicist/jform/JFormManager.java:377-443 | registering and then deregistering leaves no trace of the converter's name or component and changes no other name |
| Manager.SameConverters | src/com/madphysicist/jform/JFormManager.java:128-175 | consistent maps hold the same converters by component and by name |
| Manager.CountsMatchOnlyWhenAll | src/com/madphysicist/jform/JFormManager.java:1017-1021 | a subset of the bound names has their count exactly when it is all of them, which justifies comparing counts |
| Manager.ImportedValues | src/com/madphysicist/jform/JFormManager.java:984-1022 | after an import every unbound entry holds its imported value, a created one has the value's string and no listeners, existing listeners stay, and untouched properties are unchanged |
| Manager.ExportedNames | src/com/madphysicist/jform/JFormManager.java:1623-1660 | a successful export names exactly the unbound properties and the enabled bound ones not skipped; a disabled converter's name is absent |
| Manager.JFormManager.constructor | src/com/madphysicist/jform/JFormManager.java:182-188 | the three maps start empty and consistent |
| Manager.JFormManager.Register | src/com/madphysicist/jform/JFormManager.java:377-390 | an unbound property of the name is taken over (its listeners join the converter); both maps get the converter; the `InternalError` is thrown exactly when the displaced converters differ, after the maps changed; on consistent maps, success and consistency afterwards coincide |
| Manager.JFormManager.RegisterNew | src/com/madphysicist/jform/JFormManager.java:356-359 | a constructor failure leaves the maps alone; otherwise a fresh converter is registered |
| Manager.JFormManager.RegisterComponent | src/com/madphysicist/jform/JFormManager.java:326-329 | as `register(name, ...)`, with the converter named after the component |
| Manager.JFormManager.ComponentOf | src/com/madphysicist/jform/JFormManager.java:233-238 | the component of the converter bound to the name, or `null` when it is not bound |
| Manager.JFormManager.NameOf | src/com/madphysicist/jform/JFormManager.java:248-253 | the name of the converter registered for the component, or `null` |
| Manager.JFormManager.NameAndComponentAgree | src/com/madphysicist/jform/JFormManager.java:233-253 | on consistent maps `getName` and `getComponent` undo each other |
| Manager.JFormManager.DeregisterConverter | src/com/madphysicist/jform/JFormManager.java:437-443 | both keys of the converter are removed, whoever they map to; `null` does nothing; consistent maps stay consistent exactly when `DeregisterHarmless` holds |
| Manager.JFormManager.DeregisterComponent | src/com/madphysicist/jform/JFormManager.java:403-406 | the converter of the component is deregistered; consistency is kept |
| Manager.JFormManager.DeregisterName | src/com/madphysicist/jform/JFormManager.java:419-425 | a bound name is deregistered, an unbound one forgotten; afterwards the name is no property |
| Manager.JFormManager.UnbindConverter | src/com/madphysicist/jform/JFormManager.java:493-499 | the converter is deregistered and replaced by a fresh unbound property with its listeners; a `ClassCastException` from the reading leaves it only deregistered; the converter is read as `ReadForNode` says; consistent maps stay consistent exactly when `DeregisterHarmless` holds, in particular for the converter registered under its name |
| Manager.JFormManager.UnbindPresent | src/com/madphysicist/jform/JFormManager.java:495-498 | `unbind` of a non-null converter: both its keys go, and unless the reading raises a `ClassCastException` the name maps to a fresh unbound node of that name holding the converter's listeners; the converter is read as `ReadForNode` says |
| Manager.JFormManager.UnbindName | src/com/madphysicist/jform/JFormManager.java:457-460 | unbinds the converter bound to the name, reading it as `ReadForNode` says; an unbound or unknown name is left alone; consistency is kept |
| Manager.JFormManager.UnbindComponent | src/com/madphysicist/jform/JFormManager.java:475-478 | unbinds the converter registered for the component, if any, reading it as `ReadForNode` says; consistency is kept |
| Manager.JFormManager.AddListenerName | src/com/madphysicist/jform/JFormManager.java:532-540 | the listener joins the bound converter, else the unbound property, else a new unbound property with a `null` value and that listener alone |
| Manager.JFormManager.AddListenerComponent | src/com/madphysicist/jform/JFormManager.java:556-560 | the listener joins the registered component's converter |
| Manager.JFormManager.RemoveListenerName | src/com/madphysicist/jform/JFormManager.java:574-580 | the listener leaves the bound converter, else the unbound property |
| Manager.JFormManager.RemoveListenerComponent | src/com/madphysicist/jform/JFormManager.java:594-598 | the listener leaves the registered component's converter |
| Manager.JFormManager.GetName | src/com/madphysicist/jform/JFormManager.java:623-633 | an enabled bound property is read with notification: a value read notifies as `changeValue` does, a failure sets the error; anything else notifies nobody; a disabled one gives `null`; an unbound one gives its value; an unknown name gives `null` |
| Manager.JFormManager.GetComponent | src/com/madphysicist/jform/JFormManager.java:649-657 | an enabled registered component is read with notification, notifying as `changeValue` does on a value read and setting the error on a failure; anything else notifies nobody and gives `null` when not enabled |
| Manager.JFormManager.GetStringName | src/com/madphysicist/jform/JFormManager.java:685-695 | as `get`, through `readString()`: when both reads of an enabled bound property succeed it notifies as `changeValue` does, otherwise nobody hears; an unbound property gives its string |
| Manager.JFormManager.GetStringComponent | src/com/madphysicist/jform/JFormManager.java:713-721 | as `get(Component)`, through `readString()`, with the same notifications as `GetStringName` |
| Manager.JFormManager.SetName | src/com/madphysicist/jform/JFormManager.java:753-761 | a bound property is written through its translator, enabled or not; an unbound one is set (throwing on `null` over `null`), broadcasting a change of value to its listeners and staying silent otherwise; any other name becomes a new unbound property with the value and its string, which has heard nothing; consistency is kept |
| Manager.JFormManager.SetComponent | src/com/madphysicist/jform/JFormManager.java:777-781 | only a registered component is written |
| Manager.JFormManager.CheckName | src/com/madphysicist/jform/JFormManager.java:799-807 | `checkValue(mark)` of an enabled bound property: reports a change against the previous value and notifies as `changeValue` does, sets the error on a marked failure, passes on a `ClassCastException`; anything else reports no change and notifies nobody |
| Manager.JFormManager.CheckComponent | src/com/madphysicist/jform/JFormManager.java:824-832 | `checkValue(mark)` of an enabled registered component, with the same results and notifications as `CheckName`; anything else reports no change |
| Manager.JFormManager.ClearErrorsName | src/com/madphysicist/jform/JFormManager.java:872-876 | the bound converter clears its error |
| Manager.JFormManager.ClearErrorsComponent | src/com/madphysicist/jform/JFormManager.java:890-894 | the registered converter clears its error |
| Manager.JFormManager.ClearErrors | src/com/madphysicist/jform/JFormManager.java:907-911 | every registered converter's flag is off, with its markup, value history and notifications kept |
| Manager.JFormManager.CheckAll | src/com/madphysicist/jform/JFormManager.java:848-856 | a `ClassCastException` from any enabled converter is passed on; otherwise the result is true exactly when some enabled one changed, errors are set exactly where a marked check failed, and each enabled converter whose read succeeded records the value and notifies as `changeValue` does while every other converter keeps its value and notifies nobody |
| Manager.JFormManager.CheckScan | src/com/madphysicist/jform/JFormManager.java:850-854 | the loop of `check`: stops exactly when some enabled converter raises a `ClassCastException`, otherwise has checked them all, with each converter's error, value and notifications as `CheckAll` states |
| Manager.JFormManager.CheckStep | src/com/madphysicist/jform/JFormManager.java:851-853 | one iteration of `check`: a disabled converter is skipped, keeping its error flag, value and log; an enabled one is checked |
| Manager.JFormManager.CheckEnabled | src/com/madphysicist/jform/JFormManager.java:852-853 | `checkValue(mark)` on one enabled converter: stops exactly on a `ClassCastException`, otherwise the change flag and the converter's error, value and notifications are extended as `CheckAll` states |
| Manager.JFormManager.ImportConfig | src/com/madphysicist/jform/JFormManager.java:984-1022 | every entry is set; `null` over `null` on an unbound property throws; otherwise the unbound properties are exactly as `Imported` says and their notifications as `ImportHeard` says (a changed value is broadcast to the property's listeners, a created property has heard nothing); strict mode throws exactly when some bound write was rejected, with their count; the result is true exactly when every bound property was written |
| Manager.JFormManager.ImportAll | src/com/madphysicist/jform/JFormManager.java:993-1006 | the loop of `importConfig`: sets every entry unless one throws a `NullPointerException`, leaving the unbound properties as `Imported` says and their logs as `ImportHeard` says; the rejected and the written bound names are collected, so the counters are their sizes |
| Manager.JFormManager.ImportStep | src/com/madphysicist/jform/JFormManager.java:994-1005 | one iteration: a `NullPointerException` exactly on `null` over `null`, a rejection exactly for a bound name the translator refuses; otherwise the properties and their logs advance by that entry |
| Manager.JFormManager.ImportEntry | src/com/madphysicist/jform/JFormManager.java:997-998 | `set(name, value, null)` on a bound name leaves the unbound properties and their logs and is rejected exactly when the translator refuses; on an unbound name it updates that one property as `SetNode` says and its log as `SetHeard` says |
| Manager.ImportHeardStep | src/com/madphysicist/jform/JFormManager.java:994-1005 | setting one more entry of `importConfig` extends the notification logs as `ImportHeard` describes |
| Manager.JFormManager.Export | src/com/madphysicist/jform/JFormManager.java:1614-1664 | a plain `ClassCastException` from an enabled converter aborts; failed reads raise one exception with their count, before any unbound entry or notification, with every value history and log untouched; otherwise, unless the closing `check(false)` aborts, the result is the enabled bound values read plus every unbound property, no error flag is left on, and with `notify` each enabled converter whose value read succeeds records that value and notifies as `changeValue` does while without it nobody hears anything |
| Manager.JFormManager.ExportRead | src/com/madphysicist/jform/JFormManager.java:1614-1642 | errors are cleared and every enabled converter is read without notification; the failures and the values read are those of the enabled converters; no value history or log changes, and an error is left only on a converter whose read failed |
| Manager.JFormManager.ExportScan | src/com/madphysicist/jform/JFormManager.java:1623-1642 | the read loop of `export`: aborts exactly when some enabled converter raises a plain `ClassCastException`; otherwise the failures and values are those of the enabled converters and nobody is notified |
| Manager.JFormManager.ExportStep | src/com/madphysicist/jform/JFormManager.java:1624-1641 | one iteration: a value goes into the result, a `TranslatorException` into the failures, a `TranslatorComponentException` is skipped, a plain `ClassCastException` aborts |
| Manager.JFormManager.AddUnbound | src/com/madphysicist/jform/JFormManager.java:1653-1660 | every unbound property's value, or string, is put into the result |
| Manager.JFormManager.ExportConfig | src/com/madphysicist/jform/JFormManager.java:1247-1252 | an export of values: when nothing fails, the enabled bound values plus the unbound values |
| Manager.JFormManager.ExportStrings | src/com/madphysicist/jform/JFormManager.java:1284-1289 | an export of strings: when nothing fails, the enabled bound strings plus the unbound strings |

## Left out

- The file, stream and resource wrappers (`importResource`, `importXML`,
  `importProperties`, `exportProperties`, `exportXML`): thin I/O over
  `Properties` and the filesystem around `importConfig` and `export`.
- The `preImport`, `postImport`, `preExport` and `postExport` hooks: they are
  empty in the core, so skipping them on a strict failure has no visible
  effect here.
- `getRegistration` and `isBound`: plain map lookups, which appear as
  `Lookup` and `n in names`; `isProperty` is `IsProperty`.
- The simple getters of `Converter` and `CheckBoxTranslator` (`getComponent`,
  `getTranslator`, `getName`, `isError`, `getErrorForeground`, `getTrue`, …):
  they read a field.
- `ConverterFactory.createConverter` and `getDefaultInstance`: static
  delegations to a shared factory, whose calls are `GetConverter` and
  `GetComponentConverter`.
- `null` property names: `UnboundNode`'s constructor throws on one, and
  names are plain strings here.
- CheckBox.FromValues: the values are never `null` here. In the source the
  two-argument constructor throws a `NullPointerException` on a `null`
  value, and the four-argument one accepts `null`s, after which
  `writeValue` throws one on a `null` true value or string; neither
  failure is modelled.
- `null` arguments the code dereferences at once: `register(null)` throws a
  `NullPointerException` at `getName()` (`JFormManager.java:380`) before any
  map changes, and `Converter.addListeners(null)` and
  `removeListeners(null)` throw on the collection (`Converter.java:499-512`);
  those parameters are never `null` here.
- What a write does to a widget: the translator's `writeValue` is only
  accepted or rejected; a `ClassCastException` on a write is not modelled.
- `null` elements inside a configuration's component lists, and a `null`
  configuration being called: both would throw in the toolkit code.
- The message text, cause, translator and component carried by the
  aggregate `TranslatorException`: only the count is kept.
- The source of a `PropertyChangeEvent`: the log records listener,
  property, old and new value.
- The other translators, the `Translator` interface's other
  implementations, and the demo application.
- Serialization, `MarkupNode.equals`/`hashCode`, and the `ErrorColor`
  subclass beyond its tag.
- Manager.JFormManager.ImportConfig: requires consistent maps; the code
  does not check them. The constructor makes them consistent; `register`
  keeps them exactly when it does not throw its `InternalError`; the
  by-name and by-component operations keep them; `deregister(Converter)`
  and `unbind(Converter)` keep them exactly when `DeregisterHarmless`
  holds, which the registered converter and a converter with neither key
  registered satisfy, and break them otherwise
  (`DeregisterConsistentExactly`, `UnbindConsistentExactly`). What any
  call does on maps that are no longer consistent is not stated.
- Manager.JFormManager.Export: requires consistent maps, for the reasons
  given for `ImportConfig`; it does not state which error flags a failed
  export leaves on.
- Manager.JFormManager.ExportConfig: states the successful result and the
  kinds of error only; `Export` states the rest.
- Manager.JFormManager.ExportStrings: states the successful result and the
  kinds of error only; `Export` states the rest.
- Manager.JFormManager.ClearErrors: states the flags but not the colours.
  Two converters may mark up the same component, so the final colour
  depends on iteration order; `Converter.ClearError` states the colours
  for one converter.
- Manager.JFormManager.CheckAll: after a `ClassCastException` with `mark`
  set, which converters were already checked depends on iteration order,
  so their error flags and values are not stated.
- Manager.JFormManager.GetName: states the result, the error flag and the
  notifications, not the colour changes that `Converter.ReadValue` states.
- Manager.JFormManager.GetStringName: states the result, the error flag and the
  notifications, not the colour changes that `Converter.ReadString` states.
- Manager.JFormManager.GetComponent: states the result, the error flag and the
  notifications, not the colour changes that `Converter.ReadValue` states.
- Manager.JFormManager.GetStringComponent: states the result, the error flag and the
  notifications, not the colour changes that `Converter.ReadString` states.
- Manager.JFormManager.CheckName: states the result, the error flag and the
  notifications, not the colour changes that `Converter.CheckValue` states.
- Manager.JFormManager.CheckComponent: states the result, the error flag and the
  notifications, not the colour changes that `Converter.CheckValue` states.
- Manager.JFormManager.Register: the writes `bind` attempts are not in its
  contract, because writes have no modelled effect.
- The counters `failed` and `fieldCount` of `importConfig`, and `failed`
  of `export`, are modelled as the sizes of the sets of names or
  converters they count; each entry is visited once, so the two agree.
