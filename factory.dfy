/**
 * The converter factory: per-component-type markup configurations, looked up
 * along the superclass chain of a component, with a fixed table of defaults
 * underneath the factory's own mappings.
 */
module Factory {
  import opened Base
  import opened Converters

  /**
   * A `MarkupConfiguration`: for a component, the components to mark up in
   * the foreground and in the background (`None` is a `null` list).
   */
  datatype MarkupConfiguration = MarkupConfiguration(
    foregrounds: Component -> Option<seq<Component>>,
    backgrounds: Component -> Option<seq<Component>>)

  /** `CONFIG_FOREGROUND`. */
  function ConfigForeground(): MarkupConfiguration
  {
    MarkupConfiguration(k => Some([k]), k => None)
  }

  /** `CONFIG_BACKGROUND`. */
  function ConfigBackground(): MarkupConfiguration
  {
    MarkupConfiguration(k => None, k => Some([k]))
  }

  /** `CONFIG_BOTH`. */
  function ConfigBoth(): MarkupConfiguration
  {
    MarkupConfiguration(k => Some([k]), k => Some([k]))
  }

  /** What the three stock configurations mark for a component: the component itself, on their sides. */
  lemma StockConfigurations(k: Component)
    ensures ConfigForeground().foregrounds(k) == Some([k]) && ConfigForeground().backgrounds(k) == None
    ensures ConfigBackground().foregrounds(k) == None && ConfigBackground().backgrounds(k) == Some([k])
    ensures ConfigBoth().foregrounds(k) == Some([k]) && ConfigBoth().backgrounds(k) == Some([k])
  {
  }

  /**
   * The toolkit accessors that three of the default configurations call:
   * the editor component of a combo box, the editor of a spinner, and the
   * button and the text field of a file field.
   */
  datatype Accessors = Accessors(
    comboEditor: Component -> Component,
    spinnerEditor: Component -> Component,
    fileButton: Component -> Component,
    fileTextField: Component -> Component)

  /** `populateDefaultConfigs`: the defaults, fixed once the class is loaded. */
  function DefaultConfigs(a: Accessors): (d: map<ClassName, MarkupConfiguration>)
    ensures ComponentClass in d && d[ComponentClass] == ConfigBoth()
  {
    map[
      ComponentClass := ConfigBoth(),
      "java.awt.Label" := ConfigForeground(),
      "javax.swing.JLabel" := ConfigForeground(),
      "java.awt.Button" := ConfigForeground(),
      "java.awt.Checkbox" := ConfigForeground(),
      "javax.swing.AbstractButton" := ConfigForeground(),
      "java.awt.TextComponent" := ConfigBackground(),
      "javax.swing.text.JTextComponent" := ConfigBackground(),
      "com.madphysicist.tools.swing.JColorButton" := ConfigBackground(),
      "javax.swing.JComboBox" := MarkupConfiguration(k => None, (k: Component) => Some([a.comboEditor(k)])),
      "javax.swing.JSpinner" := MarkupConfiguration(k => None, (k: Component) => Some([a.spinnerEditor(k)])),
      "com.madphysicist.tools.swing.JFileField" := MarkupConfiguration((k: Component) => Some([a.fileButton(k)]), (k: Component) => Some([a.fileTextField(k)]))
    ]
  }

  /**
   * `getValue`: the factory's own mapping for exactly this type (which may be
   * a registered `null`), else the default one, else `null`.
   */
  function GetValue(cls: ClassName, configs: map<ClassName, Option<MarkupConfiguration>>, defaults: map<ClassName, MarkupConfiguration>): (r: Option<MarkupConfiguration>)
    ensures cls in configs ==> r == configs[cls]
    ensures cls !in configs && cls in defaults ==> r == Some(defaults[cls])
    ensures r.None? <==> (cls in configs && configs[cls].None?) || (cls !in configs && cls !in defaults)
  {
    if cls in configs then configs[cls]
    else if cls in defaults then Some(defaults[cls])
    else None
  }

  /**
   * `findConfiguration`: walk up the superclass chain and take the first
   * mapping found; at `Component` itself only the defaults are consulted.
   * The defaults map `Component`, so the search always finds something.
   */
  function FindConfiguration(chain: ClassChain, configs: map<ClassName, Option<MarkupConfiguration>>, defaults: map<ClassName, MarkupConfiguration>): (r: Option<MarkupConfiguration>)
    ensures ComponentClass in defaults ==> r.Some?
    decreases |chain|
  {
    if chain[0] == ComponentClass then
      if ComponentClass in defaults then Some(defaults[ComponentClass]) else None
    else
      match GetValue(chain[0], configs, defaults)
      case Some(c) => Some(c)
      case None => FindConfiguration(chain[1..], configs, defaults)
  }

  /**
   * The most specific type of the chain that has any mapping wins: a
   * mapping for a subclass shadows every mapping of its superclasses.
   */
  lemma {:induction false} MostSpecificWins(chain: ClassChain, i: nat, configs: map<ClassName, Option<MarkupConfiguration>>, defaults: map<ClassName, MarkupConfiguration>)
    requires i < |chain| - 1
    requires GetValue(chain[i], configs, defaults).Some?
    requires forall j :: 0 <= j < i ==> GetValue(chain[j], configs, defaults).None?
    ensures FindConfiguration(chain, configs, defaults) == GetValue(chain[i], configs, defaults)
  {
    if i > 0 {
      assert GetValue(chain[0], configs, defaults).None?;
      var rest: ClassChain := chain[1..];
      forall j | 0 <= j < i - 1
        ensures GetValue(rest[j], configs, defaults).None?
      {
        assert rest[j] == chain[j + 1];
      }
      MostSpecificWins(rest, i - 1, configs, defaults);
    }
  }

  /** With no mapping anywhere below `Component`, the default for `Component` is used. */
  lemma {:induction false} FallsBackToComponent(chain: ClassChain, configs: map<ClassName, Option<MarkupConfiguration>>, defaults: map<ClassName, MarkupConfiguration>)
    requires ComponentClass in defaults
    requires forall j :: 0 <= j < |chain| - 1 ==> GetValue(chain[j], configs, defaults).None?
    ensures FindConfiguration(chain, configs, defaults) == Some(defaults[ComponentClass])
  {
    if chain[0] != ComponentClass {
      var rest: ClassChain := chain[1..];
      forall j | 0 <= j < |rest| - 1
        ensures GetValue(rest[j], configs, defaults).None?
      {
        assert rest[j] == chain[j + 1];
      }
      FallsBackToComponent(rest, configs, defaults);
    }
  }

  /**
   * A factory's own mapping for `Component` is never used: the walk stops at
   * `Component` and reads only the defaults there.
   */
  lemma {:induction false} ComponentMappingIgnored(chain: ClassChain, configs: map<ClassName, Option<MarkupConfiguration>>, defaults: map<ClassName, MarkupConfiguration>, c: Option<MarkupConfiguration>)
    ensures FindConfiguration(chain, configs[ComponentClass := c], defaults) == FindConfiguration(chain, configs, defaults)
  {
    if chain[0] != ComponentClass {
      assert GetValue(chain[0], configs[ComponentClass := c], defaults) == GetValue(chain[0], configs, defaults);
      var rest: ClassChain := chain[1..];
      ComponentMappingIgnored(rest, configs, defaults, c);
    }
  }

  /**
   * Registering `null` for a type hides the default for that type: the search
   * goes on to the superclass as if neither map had an entry.
   */
  lemma {:induction false} NullRegistrationFallsThrough(chain: ClassChain, configs: map<ClassName, Option<MarkupConfiguration>>, defaults: map<ClassName, MarkupConfiguration>)
    requires |chain| > 1
    ensures FindConfiguration(chain, configs[chain[0] := None], defaults) == FindConfiguration(chain[1..], configs[chain[0] := None], defaults)
  {
  }

  /** A `null` list adds nothing, like an empty one. */
  function ListOf(l: Option<seq<Component>>): seq<Component>
  {
    if l.None? then [] else l.value
  }

  /** The markup table after adding each component of `l`, in order, on one side. */
  function AddAll(m: map<Component, MarkupNode>, l: seq<Component>, foreground: bool): map<Component, MarkupNode>
    decreases |l|
  {
    if l == [] then m else AddMarkup(AddAll(m, l[..|l| - 1], foreground), l[|l| - 1], foreground)
  }

  /** Adding one more listed component is one `AddMarkup` on top of the rest. */
  lemma AddAllSnoc(m: map<Component, MarkupNode>, l: seq<Component>, i: int, foreground: bool)
    requires 0 <= i < |l|
    ensures AddAll(m, l[..i + 1], foreground) == AddMarkup(AddAll(m, l[..i], foreground), l[i], foreground)
  {
    assert l[..i + 1][..i] == l[..i];
  }

  /** The side of a markup node that `foreground` selects is marked. */
  predicate MarksSide(n: MarkupNode, foreground: bool)
  {
    if foreground then n.foreground else n.background
  }

  /**
   * `r` is `m` with the chosen side of every component of `l` marked: the
   * listed components gain entries, every other entry stays as it was, and
   * no side that was marked is unmarked.
   */
  ghost predicate AddedAll(m: map<Component, MarkupNode>, r: map<Component, MarkupNode>, l: seq<Component>, foreground: bool)
  {
    && (forall k :: k in r ==> k in m || k in l)
    && (forall k :: k in l ==> k in r && MarksSide(r[k], foreground))
    && (forall k :: k in m && k !in l ==> k in r && r[k] == m[k])
    && (forall k :: k in m ==> k in r && (m[k].foreground ==> r[k].foreground) && (m[k].background ==> r[k].background))
  }

  /** One more `add*Markup` call extends the property to one more listed component. */
  lemma AddedAllStep(m: map<Component, MarkupNode>, r: map<Component, MarkupNode>, init: seq<Component>, x: Component, foreground: bool)
    requires AddedAll(m, r, init, foreground)
    ensures AddedAll(m, AddMarkup(r, x, foreground), init + [x], foreground)
  {
    var r' := AddMarkup(r, x, foreground);
    var l := init + [x];
    assert forall k :: k in l <==> k in init || k == x;
    forall k | k in m && k !in l
      ensures k in r' && r'[k] == m[k]
    {
      assert k != x && k !in init;
    }
  }

  /** Adding a list marks the chosen side of exactly the listed components and changes nothing else. */
  lemma {:induction false} AddAllMarks(m: map<Component, MarkupNode>, l: seq<Component>, foreground: bool)
    ensures AddedAll(m, AddAll(m, l, foreground), l, foreground)
    decreases |l|
  {
    if l != [] {
      var init := l[..|l| - 1];
      AddAllMarks(m, init, foreground);
      AddedAllStep(m, AddAll(m, init, foreground), init, l[|l| - 1], foreground);
      assert init + [l[|l| - 1]] == l;
    }
  }

  /** Adding marks keeps every entry of the table marked on some side. */
  lemma AddedAllKeepsMarked(m: map<Component, MarkupNode>, r: map<Component, MarkupNode>, l: seq<Component>, foreground: bool)
    requires AddedAll(m, r, l, foreground) && AllMarked(m)
    ensures AllMarked(r)
  {
    forall k | k in r
      ensures r[k].foreground || r[k].background
    {
      if k in l {
        assert MarksSide(r[k], foreground);
      } else {
        assert k in m;
      }
    }
  }

  /** The markup one configuration adds for one component: foregrounds first, then backgrounds. */
  function Apply(m: map<Component, MarkupNode>, config: MarkupConfiguration, k: Component): map<Component, MarkupNode>
  {
    AddAll(AddAll(m, ListOf(config.foregrounds(k)), true), ListOf(config.backgrounds(k)), false)
  }

  class ConverterFactory {
    var configs: map<ClassName, Option<MarkupConfiguration>>
    const accessors: Accessors

    constructor (accessors: Accessors)
      ensures configs == map[] && this.accessors == accessors
    {
      configs := map[];
      this.accessors := accessors;
    }

    /** The configuration this factory uses for a component of the given class chain. */
    function ConfigurationFor(chain: ClassChain): (c: MarkupConfiguration)
      reads this
      ensures Some(c) == FindConfiguration(chain, configs, DefaultConfigs(accessors))
    {
      FindConfiguration(chain, configs, DefaultConfigs(accessors)).value
    }

    /**
     * The markup table `configureComponent` produces: the component's own
     * configuration, then, for a non-null label, the label's configuration
     * once.
     */
    function Configured(m: map<Component, MarkupNode>, component: Component, caption: Component?): map<Component, MarkupNode>
      reads this
    {
      var m1 := Apply(m, ConfigurationFor(component.chain), component);
      if caption == null then m1 else Apply(m1, ConfigurationFor(caption.chain), caption)
    }

    /** `registerConfiguration`: overwrite the mapping for exactly this type; the defaults never change. */
    method RegisterConfiguration(cls: ClassName, config: Option<MarkupConfiguration>)
      modifies `configs
      ensures configs == old(configs)[cls := config]
    {
      configs := configs[cls := config];
    }

    /** One of the loops of `configureComponent`: add markup for each listed component. */
    method AddEach(cv: Converter, l: Option<seq<Component>>, foreground: bool)
      modifies cv`markup
      ensures cv.markup == AddAll(old(cv.markup), ListOf(l), foreground)
    {
      if l.Some? && |l.value| != 0 {
        var list := l.value;
        ghost var m0 := cv.markup;
        var i := 0;
        while i < |list|
          invariant 0 <= i <= |list|
          invariant cv.markup == AddAll(m0, list[..i], foreground)
        {
          AddAllSnoc(m0, list, i, foreground);
          var k := list[i];
          if foreground {
            cv.AddForegroundMarkup(k);
          } else {
            cv.AddBackgroundMarkup(k);
          }
          i := i + 1;
        }
        assert list[..i] == list;
      }
    }

    /** `configureComponent`: mark up the component, then its label, by their types' configurations. */
    method ConfigureComponent(cv: Converter, component: Component, caption: Component?) returns (r: Converter)
      modifies cv`markup
      ensures r == cv
      ensures cv.markup == Configured(old(cv.markup), component, caption)
      decreases if caption == null then 0 else 1
    {
      var config := ConfigurationFor(component.chain);
      AddEach(cv, config.foregrounds(component), true);
      AddEach(cv, config.backgrounds(component), false);
      if caption != null {
        var _ := ConfigureComponent(cv, caption, null);
      }
      return cv;
    }

    /** `getConverter(name, component, translator, label)`: construct, then configure. */
    method GetConverter(name: Option<string>, component: Component?, translator: Option<TranslatorId>, caption: Component?) returns (r: Result<Converter>)
      ensures r.Success? <==> name.Some? && component != null && translator.Some?
      ensures r.Failure? ==> r == Failure(NullPointer(if name.None? then "name" else if component == null then "component" else "translator"))
      ensures r.Success? ==> fresh(r.value) && r.value.Valid()
      ensures r.Success? ==> r.value.name == name.value && r.value.component == component && r.value.translator == translator.value
      ensures r.Success? ==> r.value.markup == Configured(map[], component, caption) && r.value.listeners == {} && r.value.notified == []
      ensures r.Success? ==> !r.value.useWhenDisabled && !r.value.error && r.value.previousValue == None
      ensures r.Success? ==> r.value.foregroundErrorColor == DefaultForegroundError && r.value.backgroundErrorColor == DefaultBackgroundError
    {
      r := Converter.New(name, component, translator);
      if r.Success? {
        var _ := ConfigureComponent(r.value, component, caption);
        ConfiguredIsMarked(this, map[], component, caption);
      }
    }

    /** `getConverter(component, translator, label)`: the property is named after the component. */
    method GetComponentConverter(component: Component?, translator: Option<TranslatorId>, caption: Component?) returns (r: Result<Converter>)
      ensures component == null ==> r == Failure(NullPointer(""))
      ensures component != null && component.name.None? ==> r == Failure(NullPointer("name"))
      ensures component != null && component.name.Some? && translator.None? ==> r == Failure(NullPointer("translator"))
      ensures r.Success? <==> component != null && component.name.Some? && translator.Some?
      ensures r.Success? ==> fresh(r.value) && r.value.Valid()
      ensures r.Success? ==> r.value.name == component.name.value && r.value.component == component && r.value.translator == translator.value
      ensures r.Success? ==> r.value.markup == Configured(map[], component, caption) && r.value.listeners == {} && r.value.notified == []
      ensures r.Success? ==> !r.value.useWhenDisabled && !r.value.error && r.value.previousValue == None
      ensures r.Success? ==> r.value.foregroundErrorColor == DefaultForegroundError && r.value.backgroundErrorColor == DefaultBackgroundError
    {
      r := Converter.ForComponent(component, translator);
      if r.Success? {
        var _ := ConfigureComponent(r.value, component, caption);
        ConfiguredIsMarked(this, map[], component, caption);
      }
    }
  }

  /** A freshly configured converter keeps the invariant: every entry marks a side. */
  lemma ConfiguredIsMarked(f: ConverterFactory, m: map<Component, MarkupNode>, component: Component, caption: Component?)
    requires AllMarked(m)
    ensures AllMarked(f.Configured(m, component, caption))
  {
    var m1 := ApplyIsMarked(m, f.ConfigurationFor(component.chain), component);
    if caption != null {
      var _ := ApplyIsMarked(m1, f.ConfigurationFor(caption.chain), caption);
    }
  }

  /** Applying one configuration keeps every entry marked. */
  lemma ApplyIsMarked(m: map<Component, MarkupNode>, c: MarkupConfiguration, k: Component) returns (r: map<Component, MarkupNode>)
    requires AllMarked(m)
    ensures r == Apply(m, c, k) && AllMarked(r)
  {
    var fg := ListOf(c.foregrounds(k));
    var bg := ListOf(c.backgrounds(k));
    var m0 := AddAll(m, fg, true);
    AddAllMarks(m, fg, true);
    AddedAllKeepsMarked(m, m0, fg, true);
    r := AddAll(m0, bg, false);
    AddAllMarks(m0, bg, false);
    AddedAllKeepsMarked(m0, r, bg, false);
  }
}
