// Element construction on the production path
// (packages/react/element-factory.js:89-111, 113-190, 192-256, 258-273, 429-438).
//
// Objects are maps from own enumerable property names to values; a property may
// hold undefined.
module Elements {
  import opened Wrappers

  // `text` is what '' + value gives.  `Many` is an array of child arguments.
  datatype Value = Undefined | Null | Other(id: nat, text: string) | Many(items: seq<Value>)

  type Props = map<string, Value>

  datatype ComponentType = ComponentType(id: nat, defaultProps: Option<Props>)

  datatype Element = Element(component: ComponentType, key: Option<string>, ref: Value, props: Props)

  function Get(object': Props, name: string): Value {
    if name in object' then object'[name] else Undefined
  }

  function Text(v: Value): string {
    match v
    case Undefined => "undefined"
    case Null => "null"
    case Other(_, text) => text
    case Many(items) => Join(items)
  }

  // An array joins its items with commas and leaves null and undefined blank.
  function Join(items: seq<Value>): string {
    if items == [] then ""
    else (if items[0].Undefined? || items[0].Null? then "" else Text(items[0]))
         + (if |items| == 1 then "" else "," + Join(items[1..]))
  }

  // createProductionElement
  function ProductionElement(component: ComponentType, key: Option<string>, props: Props): Element {
    Element(component, key, if Get(props, "ref").Undefined? then Null else Get(props, "ref"), props)
  }

  // ---------- by reference ----------

  const RESERVED := {"key", "__self", "__source"}

  function Without(config: Props, names: set<string>): Props {
    map name | name in config && name !in names :: config[name]
  }

  function KeyFrom(v: Value, fallback: Option<string>): Option<string> {
    if v.Undefined? then fallback else Some(Text(v))
  }

  // The children property that child arguments make.
  function ChildValue(children: seq<Value>): Value
    requires children != []
  {
    if |children| == 1 then children[0] else Many(children)
  }

  function WithChildren(props: Props, children: seq<Value>): Props {
    if children == [] then props else props["children" := ChildValue(children)]
  }

  function WithDefaults(props: Props, defaults: Option<Props>): Props {
    match defaults
    case None => props
    case Some(d) => map name | name in props.Keys + d.Keys :: Filled(props, d, name)
  }

  function Filled(props: Props, defaults: Props, name: string): Value
    requires name in props || name in defaults
  {
    if name in defaults && Get(props, name).Undefined? then defaults[name] else props[name]
  }

  function Jsx(component: ComponentType, config: Props, maybeKey: Value): Element {
    ProductionElement(component, KeyFrom(Get(config, "key"), KeyFrom(maybeKey, None)), Without(config, {"key"}))
  }

  // `config` None stands for null or undefined.
  function Create(component: ComponentType, config: Option<Props>, children: seq<Value>): Element {
    var c := if config.Some? then config.value else map[];
    ProductionElement(component, KeyFrom(Get(c, "key"), None),
                      WithDefaults(WithChildren(Without(c, RESERVED), children), component.defaultProps))
  }

  // What a clone takes over from its config: an undefined ref is ignored.
  function CloneNames(config: Props): Props {
    Without(config, if Get(config, "ref").Undefined? then RESERVED + {"ref"} else RESERVED)
  }

  function Clone(element: Element, config: Option<Props>, children: seq<Value>): Element {
    var c := if config.Some? then config.value else map[];
    ProductionElement(element.component, KeyFrom(Get(c, "key"), element.key),
                      WithChildren(element.props + CloneNames(c), children))
  }

  function ReplaceKey(element: Element, key: string): Element {
    ProductionElement(element.component, Some(key), element.props)
  }

  // ---------- the functions themselves ----------

  // The copying loop: each enumerated name that is not excluded is assigned.
  method CopyProps(start: Props, config: Props, excluded: set<string>) returns (props: Props)
    ensures props == start + Without(config, excluded)
  {
    props := start;
    var names := config.Keys;
    while names != {}
      invariant names <= config.Keys
      invariant Overlay(props, config, names, excluded) == Overlay(start, config, config.Keys, excluded)
      decreases |names|
    {
      var name :| name in names;
      OverlayStep(props, config, names, excluded, name);
      if name !in excluded { props := props[name := config[name]]; }
      names := names - {name};
    }
    assert Overlay(props, config, {}, excluded) == props;
  }

  // What a map holds once the named entries of another, but for the excluded ones, are copied over it.
  ghost function Overlay<K, V>(start: map<K, V>, source: map<K, V>, names: set<K>, excluded: set<K>): map<K, V> {
    start + (map name | name in source && name !in excluded && name in names :: source[name])
  }

  lemma OverlayStep<K, V>(start: map<K, V>, source: map<K, V>, names: set<K>, excluded: set<K>, name: K)
    requires name in names && name in source
    ensures Overlay(start, source, names, excluded)
            == Overlay(if name in excluded then start else start[name := source[name]], source, names - {name}, excluded)
  {
  }

  method JsxProd(component: ComponentType, config: Props, maybeKey: Value) returns (e: Element)
    ensures e == Jsx(component, config, maybeKey)
  {
    var key := None;
    if !maybeKey.Undefined? { key := Some(Text(maybeKey)); }
    if !Get(config, "key").Undefined? { key := Some(Text(Get(config, "key"))); }
    var props := config;
    if "key" in config {
      props := CopyProps(map[], config, {"key"});
    }
    assert props == Without(config, {"key"});
    e := ProductionElement(component, key, props);
  }

  method AddChildren(props: Props, children: seq<Value>) returns (r: Props)
    ensures r == WithChildren(props, children)
  {
    r := props;
    if |children| == 1 {
      r := r["children" := children[0]];
    } else if |children| > 1 {
      var childArray := [];
      for index := 0 to |children|
        invariant childArray == children[..index]
      {
        childArray := childArray + [children[index]];
      }
      assert childArray == children;
      r := r["children" := Many(childArray)];
    }
  }

  method FillDefaults(given: Props, defaults: Props) returns (props: Props)
    ensures props == WithDefaults(given, Some(defaults))
  {
    hide *;
    props := given;
    var names := defaults.Keys;
    ghost var present := Present(given, defaults);
    while names != {}
      invariant names <= defaults.Keys
      invariant forall name :: name in names ==> Get(props, name) == Get(given, name)
      invariant Overlay(props, defaults, names, present) == Overlay(given, defaults, defaults.Keys, present)
      decreases |names|
    {
      var name :| name in names;
      OverlayStep(props, defaults, names, present, name);
      PresentExactly(given, defaults, name);
      var before := props;
      if Get(props, name).Undefined? { props := props[name := defaults[name]]; }
      names := names - {name};
      GetKept(before, name, defaults[name], names);
    }
    OverlayNothing(props, defaults, present);
    OverlayDefaults(given, defaults);
  }

  // The defaults that are not needed.
  ghost function Present(given: Props, defaults: Props): set<string> {
    set name | name in defaults && !Get(given, name).Undefined?
  }

  lemma PresentExactly(given: Props, defaults: Props, name: string)
    requires name in defaults
    ensures name in Present(given, defaults) <==> !Get(given, name).Undefined?
  {
  }

  lemma GetKept(props: Props, name: string, v: Value, names: set<string>)
    requires name !in names
    ensures forall other :: other in names ==> Get(props[name := v], other) == Get(props, other)
  {
  }

  lemma OverlayNothing<K, V>(start: map<K, V>, source: map<K, V>, excluded: set<K>)
    ensures Overlay(start, source, {}, excluded) == start
  {
  }

  lemma OverlayDefaults(given: Props, defaults: Props)
    ensures Overlay(given, defaults, defaults.Keys, Present(given, defaults)) == WithDefaults(given, Some(defaults))
  {
  }

  method CreateElementImpl(component: ComponentType, config: Option<Props>, children: seq<Value>) returns (e: Element)
    ensures e == Create(component, config, children)
  {
    var props: Props, key := map[], None;
    if config.Some? {
      if !Get(config.value, "key").Undefined? { key := Some(Text(Get(config.value, "key"))); }
      props := CopyProps(props, config.value, RESERVED);
    }
    assert props == Without(if config.Some? then config.value else map[], RESERVED);
    props := AddChildren(props, children);
    if component.defaultProps.Some? {
      props := FillDefaults(props, component.defaultProps.value);
    }
    e := ProductionElement(component, key, props);
  }

  // Nothing to clone is an error.
  method CloneElementImpl(original: Option<Element>, config: Option<Props>, children: seq<Value>) returns (e: Option<Element>)
    ensures e == if original.None? then None else Some(Clone(original.value, config, children))
  {
    if original.None? { return None; }
    var element := original.value;
    var props, key := element.props, element.key;
    if config.Some? {
      var c := config.value;
      if !Get(c, "key").Undefined? { key := Some(Text(Get(c, "key"))); }
      var excluded := RESERVED;
      if Get(c, "ref").Undefined? { excluded := excluded + {"ref"}; }
      props := CopyProps(props, c, excluded);
    }
    assert props == element.props + CloneNames(if config.Some? then config.value else map[]);
    props := AddChildren(props, children);
    e := Some(ProductionElement(element.component, key, props));
  }

  // ---------- the parts of an element ----------

  // The ref is the ref property of the props, or null.
  ghost predicate RefIsProp(e: Element) {
    e.ref == if "ref" in e.props && e.props["ref"] != Undefined then e.props["ref"] else Null
  }

  // What createElement returns: no key unless config has one that is not undefined,
  // a null key being the text "null"; one child unwrapped, more as a list; other own
  // properties but the reserved three; defaults where nothing else is given.
  lemma CreatedParts(component: ComponentType, config: Props, children: seq<Value>)
    ensures var e := Create(component, Some(config), children);
            && e.component == component && RefIsProp(e)
            && ("key" !in config || config["key"] == Undefined ==> e.key == None)
            && ("key" in config && config["key"] == Null ==> e.key == Some("null"))
            && (forall id, text :: "key" in config && config["key"] == Other(id, text) ==> e.key == Some(text))
            && (|children| == 1 && children[0] != Undefined ==> "children" in e.props && e.props["children"] == children[0])
            && (|children| > 1 ==> "children" in e.props && e.props["children"] == Many(children))
            && (forall name :: name in config && name !in {"key", "__self", "__source"} && config[name] != Undefined
                               && (name == "children" ==> children == []) ==>
                  name in e.props && e.props[name] == config[name])
    ensures component.defaultProps.Some? ==>
              forall name :: name in component.defaultProps.value
                             && (name !in config || config[name] == Undefined || name in {"key", "__self", "__source"})
                             && (name == "children" ==> children == []) ==>
                var e := Create(component, Some(config), children);
                name in e.props && e.props[name] == component.defaultProps.value[name]
    ensures Create(component, None, children) == Create(component, Some(map[]), children)
  {
    hide Text;
    NullText();
    CreatedText(config);
  }

  lemma NullText()
    ensures Text(Null) == "null"
  {
  }

  lemma CreatedText(config: Props)
    ensures forall id, text :: "key" in config && config["key"] == Other(id, text) ==> Text(config["key"]) == text
  {
  }

  // What jsx returns: every property but `key`, and the key given apart, unless the
  // properties have one of their own.
  lemma JsxParts(component: ComponentType, config: Props, maybeKey: Value)
    ensures var e := Jsx(component, config, maybeKey);
            && e.component == component && RefIsProp(e)
            && e.props.Keys == config.Keys - {"key"}
            && (forall name :: name in e.props ==> e.props[name] == config[name])
            && ("key" in config && config["key"] != Undefined ==> e.key == Some(Text(config["key"])))
            && ("key" !in config || config["key"] == Undefined ==>
                  e.key == if maybeKey == Undefined then None else Some(Text(maybeKey)))
  {
    hide Text;
  }

  // What a clone has: the component, and each part of config that is given.
  lemma ClonedParts(element: Element, config: Props, children: seq<Value>)
    ensures var e := Clone(element, Some(config), children);
            && e.component == element.component && RefIsProp(e)
            && e.key == (if "key" in config && config["key"] != Undefined then Some(Text(config["key"])) else element.key)
            && (forall name :: name in config && name !in {"key", "__self", "__source", "ref"}
                               && (name == "children" ==> children == []) ==>
                  name in e.props && e.props[name] == config[name])
            && (forall name :: name in element.props && (name !in config || name in {"key", "__self", "__source"})
                               && (name == "children" ==> children == []) ==>
                  name in e.props && e.props[name] == element.props[name])
            && ("ref" in config && config["ref"] != Undefined ==> e.ref == config["ref"])
            && (|children| == 1 ==> "children" in e.props && e.props["children"] == children[0])
            && (|children| > 1 ==> "children" in e.props && e.props["children"] == Many(children))
    ensures Clone(element, None, children) == Clone(element, Some(map[]), children)
  {
    hide Text;
    assert CloneNames(map[]) == map[];
  }

  // Arrays in keys are joined with commas, blanks for null and undefined.
  lemma KeyText()
    ensures Text(Undefined) == "undefined"
    ensures Text(Many([Null, Other(1, "x"), Many([Other(2, "y"), Undefined])])) == ",x,y,"
  {
    var inner, items := [Other(2, "y"), Undefined], [Null, Other(1, "x"), Many([Other(2, "y"), Undefined])];
    assert inner[1..] == [Undefined] && items[1..] == [Other(1, "x"), Many(inner)] && items[1..][1..] == [Many(inner)];
    assert Join([Undefined]) == "" && Join(inner) == "y,";
    assert Join([Many(inner)]) == "y," && Join(items[1..]) == "x,y,";
  }

  // ---------- the two JSX targets ----------

  // The calls a compiler emits for one JSX expression with props p, key k and
  // children: the new target puts children into the props and passes the key
  // apart, the old one puts the key into the props and passes the children apart.
  function NewTarget(component: ComponentType, p: Props, key: Value, children: seq<Value>): Element {
    Jsx(component, WithChildren(p, children), key)
  }

  function OldTarget(component: ComponentType, p: Props, key: Value, children: seq<Value>): Element {
    Create(component, Some(p["key" := key]), children)
  }

  // Without default props the two agree exactly when the props carry neither
  // __self nor __source, and no key of their own that reads otherwise than the one given.
  lemma TargetsAgreeExactly(component: ComponentType, p: Props, key: Value, children: seq<Value>)
    requires component.defaultProps.None?
    ensures NewTarget(component, p, key, children) == OldTarget(component, p, key, children)
            <==> "__self" !in p && "__source" !in p
                 && (Get(p, "key").Undefined? || KeyFrom(key, None) == Some(Text(Get(p, "key"))))
  {
    var new', old' := NewTarget(component, p, key, children), OldTarget(component, p, key, children);
    assert Get(WithChildren(p, children), "key") == Get(p, "key");
    if "__self" !in p && "__source" !in p {
      assert new'.props == old'.props;
    } else {
      var name := if "__self" in p then "__self" else "__source";
      assert name in new'.props && name !in old'.props;
    }
  }

  // A default that replaces a property the caller did not give, or gave as undefined.
  predicate DefaultFills(props: Props, defaults: Props, name: string) {
    name in defaults && Get(props, name).Undefined? && !(name in props && defaults[name].Undefined?)
  }

  // With neither of them, the two agree exactly when no default is filled in.
  lemma TargetsAgreeUnlessDefaulted(component: ComponentType, p: Props, key: Value, children: seq<Value>)
    requires "key" !in p && "__self" !in p && "__source" !in p && component.defaultProps.Some?
    ensures NewTarget(component, p, key, children) == OldTarget(component, p, key, children)
            <==> forall name :: !DefaultFills(WithChildren(p, children), component.defaultProps.value, name)
  {
    var new', old' := NewTarget(component, p, key, children), OldTarget(component, p, key, children);
    var given, defaults := WithChildren(p, children), component.defaultProps.value;
    assert Without(given, {"key"}) == given;
    assert Without(p["key" := key], RESERVED) == p;
    assert old'.props == WithDefaults(given, component.defaultProps);
    if forall name :: !DefaultFills(given, defaults, name) {
      assert old'.props == given by {
        forall name | name in old'.props ensures name in given && old'.props[name] == given[name] {
          assert !DefaultFills(given, defaults, name);
        }
      }
    } else {
      var name :| DefaultFills(given, defaults, name);
      assert old'.props[name] == defaults[name];
      assert name in given ==> given[name] != old'.props[name];
    }
  }

  // ---------- cloning ----------

  // c1 then c2; an undefined key or ref in c2 falls back to c1.
  function Merge(c1: Props, c2: Props): Props {
    c1 + (map name | name in c2 && !((name == "key" || name == "ref") && c2[name].Undefined?) :: c2[name])
  }

  lemma CloneComposes(element: Element, c1: Props, c2: Props)
    ensures Clone(Clone(element, Some(c1), []), Some(c2), []) == Clone(element, Some(Merge(c1, c2)), [])
  {
    var twice, once := Clone(Clone(element, Some(c1), []), Some(c2), []), Clone(element, Some(Merge(c1, c2)), []);
    CloneNamesMerge(c1, c2);
    OverlayTwice(element.props, CloneNames(c1), CloneNames(c2));
    assert twice.props == once.props;
  }

  lemma CloneNamesMerge(c1: Props, c2: Props)
    ensures CloneNames(Merge(c1, c2)) == CloneNames(c1) + CloneNames(c2)
  {
  }

  lemma OverlayOne<K, V>(a: map<K, V>, b: map<K, V>, k: K, v: V)
    ensures (a + b)[k := v] == a + b[k := v]
  {
  }

  lemma OverlayTwice<K, V>(a: map<K, V>, b: map<K, V>, c: map<K, V>)
    ensures (a + b) + c == a + (b + c)
  {
  }

  // Child arguments are a children property.
  lemma ChildArgumentsAreAProperty(element: Element, c: Props, children: seq<Value>)
    requires children != []
    ensures Clone(element, Some(c), children) == Clone(element, Some(WithChildren(c, children)), [])
  {
    assert CloneNames(WithChildren(c, children)) == CloneNames(c)["children" := ChildValue(children)];
    assert Get(WithChildren(c, children), "key") == Get(c, "key");
    hide CloneNames;
    OverlayOne(element.props, CloneNames(c), "children", ChildValue(children));
  }

  // So cloning twice is cloning once with child arguments too.
  lemma CloneComposesWithChildren(element: Element, c1: Props, a: seq<Value>, c2: Props, b: seq<Value>)
    ensures Clone(Clone(element, Some(c1), a), Some(c2), b)
            == Clone(element, Some(Merge(WithChildren(c1, a), WithChildren(c2, b))), [])
  {
    if a != [] { ChildArgumentsAreAProperty(element, c1, a); }
    var first := Clone(element, Some(WithChildren(c1, a)), []);
    if b != [] { ChildArgumentsAreAProperty(first, c2, b); }
    CloneComposes(element, WithChildren(c1, a), WithChildren(c2, b));
  }

  // Replacing the key is cloning with that key alone.
  lemma ReplaceKeyIsClone(element: Element, key: string, id: nat)
    ensures ReplaceKey(element, key) == Clone(element, Some(map["key" := Other(id, key)]), [])
  {
    assert CloneNames(map["key" := Other(id, key)]) == map[];
  }
}
