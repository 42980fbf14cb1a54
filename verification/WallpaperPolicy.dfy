/**
 * Wallpaper preferences: runtime choices layered over declared defaults, checked against
 * a catalog, edited one choice at a time, and turned into a plan of enabled routes.
 */
module WallpaperPolicy {
  import opened Wrappers

  /** `Other` stands for numbers, strings and arrays, which no setting may be. */
  datatype Json = Null | Bool(b: bool) | Object(fields: Fields) | Other

  type Fields = map<string, Json>

  datatype Route = Route(connection: string, category: string, subcategory: string)

  /** The known connections, each category with its subcategories, and the supported routes. */
  datatype Catalog = Catalog(connections: set<string>, categories: map<string, set<string>>, routes: seq<Route>)

  const EMPTY: Json := Object(map[])

  // ---- Merging ----

  function Merge(base: Fields, overrides: Fields): (r: Fields)
    decreases Object(overrides)
  {
    map k | k in base.Keys + overrides.Keys ::
      if k !in overrides then base[k]
      else if k in base && base[k].Object? && overrides[k].Object? then
        Inside(overrides, k);
        Object(Merge(base[k].fields, overrides[k].fields))
      else overrides[k]
  }

  lemma Inside(fields: Fields, k: string)
    requires k in fields
    ensures fields[k] < Object(fields)
  {
    assert Object(fields).fields[k] < Object(fields);
  }

  // ---- Validation ----

  /** `values.get(key, {})` */
  function Get(fields: Fields, key: string): Json
  {
    if key in fields then fields[key] else EMPTY
  }

  predicate Switches(values: Json, names: set<string>, nullable: bool)
  {
    && values.Object? && values.fields.Keys <= names
    && forall k :: k in values.fields ==> values.fields[k].Bool? || (nullable && values.fields[k].Null?)
  }

  predicate ValidNode(value: Json, catalog: Catalog, leaves: set<string>)
    decreases value
  {
    && value.Object? && value.fields.Keys <= {"enable", "connections", "subcategories"}
    && ("enable" in value.fields ==> value.fields["enable"].Bool?)
    && Switches(Get(value.fields, "connections"), catalog.connections, true)
    && ("subcategories" in value.fields ==>
          var children := value.fields["subcategories"];
          && children.Object? && children.fields.Keys <= leaves
          && forall k :: k in children.fields ==> ValidNode(children.fields[k], catalog, {}))
  }

  predicate Valid(settings: Fields, catalog: Catalog)
  {
    && settings.Keys <= {"connections", "categories", "personal"}
    && Switches(Get(settings, "connections"), catalog.connections, false)
    && ("personal" in settings ==> settings["personal"].Bool?)
    && var categories := Get(settings, "categories");
      && categories.Object? && categories.fields.Keys <= catalog.categories.Keys
      && forall k :: k in categories.fields ==> ValidNode(categories.fields[k], catalog, catalog.categories[k])
  }

  // ---- The schema ----

  datatype Shape = Nothing | AnObject | Flag | FlagOrNull

  predicate Fits(value: Json, shape: Shape)
  {
    match shape
    case Nothing => false
    case AnObject => value.Object?
    case Flag => value.Bool?
    case FlagOrNull => value.Bool? || value.Null?
  }

  /** What may stand in a category at a path of keys; a subcategory has none below it. */
  function NodeShape(path: seq<string>, connections: set<string>, leaves: set<string>): Shape
    decreases |path|
  {
    if path == [] || path == ["connections"] || path == ["subcategories"] then AnObject
    else if path == ["enable"] then Flag
    else if |path| == 2 && path[0] == "connections" && path[1] in connections then FlagOrNull
    else if |path| >= 2 && path[0] == "subcategories" && path[1] in leaves then NodeShape(path[2..], connections, {})
    else Nothing
  }

  /** What may stand in the settings at a path of keys. */
  function ShapeAt(path: seq<string>, catalog: Catalog): Shape
  {
    if path == [] || path == ["connections"] || path == ["categories"] then AnObject
    else if path == ["personal"] then Flag
    else if |path| == 2 && path[0] == "connections" && path[1] in catalog.connections then Flag
    else if |path| >= 2 && path[0] == "categories" && path[1] in catalog.categories then
      NodeShape(path[2..], catalog.connections, catalog.categories[path[1]])
    else Nothing
  }

  function StandsAt(value: Json, path: seq<string>): Option<Json>
    decreases |path|
  {
    if path == [] then Some(value)
    else if value.Object? && path[0] in value.fields then StandsAt(value.fields[path[0]], path[1..])
    else None
  }

  predicate NodeFits(value: Json, path: seq<string>, connections: set<string>, leaves: set<string>)
  {
    StandsAt(value, path).Some? ==> Fits(StandsAt(value, path).value, NodeShape(path, connections, leaves))
  }

  lemma StandsStep(value: Json, path: seq<string>, k: string)
    requires value.Object? && k in value.fields
    ensures StandsAt(value, [k] + path) == StandsAt(value.fields[k], path)
  {
    assert ([k] + path)[1..] == path;
  }

  lemma StandsLeaf(value: Json, path: seq<string>)
    requires !value.Object?
    ensures StandsAt(value, path).Some? ==> path == []
  {
  }

  lemma SwitchesFit(values: Json, names: set<string>, nullable: bool, path: seq<string>)
    requires Switches(values, names, nullable) && path != [] && StandsAt(values, path).Some?
    ensures |path| == 1 && path[0] in names
    ensures Fits(StandsAt(values, path).value, if nullable then FlagOrNull else Flag)
  {
    StandsLeaf(values.fields[path[0]], path[1..]);
  }

  lemma {:induction false} ValidNodeFits(value: Json, catalog: Catalog, leaves: set<string>, path: seq<string>)
    requires ValidNode(value, catalog, leaves)
    ensures NodeFits(value, path, catalog.connections, leaves)
    decreases |path|
  {
    if path != [] && StandsAt(value, path).Some? {
      var next, rest := value.fields[path[0]], path[1..];
      if path[0] == "enable" {
        StandsLeaf(next, rest);
      } else if rest != [] && path[0] == "connections" {
        SwitchesFit(next, catalog.connections, true, rest);
      } else if rest != [] {
        assert path[0] == "subcategories" && rest[0] in leaves;
        assert path[2..] == rest[1..];
        ValidNodeFits(next.fields[rest[0]], catalog, {}, rest[1..]);
      }
    }
  }

  lemma FitsSwitches(value: Json, key: string, names: set<string>, nullable: bool)
    requires value.Object? && Get(value.fields, key).Object?
    requires forall k :: StandsAt(value, [key, k]).Some? ==>
               k in names && Fits(StandsAt(value, [key, k]).value, if nullable then FlagOrNull else Flag)
    ensures Switches(Get(value.fields, key), names, nullable)
  {
    var values := Get(value.fields, key).fields;
    forall k | k in values
      ensures k in names && (values[k].Bool? || (nullable && values[k].Null?))
    {
      assert [key, k] == [key] + ([k] + []);
      StandsStep(value, [k], key);
      StandsStep(value.fields[key], [], k);
    }
  }

  lemma NodeKeys(value: Json, connections: set<string>, leaves: set<string>, k: string)
    requires NodeFits(value, [k], connections, leaves) && value.Object? && k in value.fields
    ensures k in {"enable", "connections", "subcategories"}
    ensures if k == "enable" then value.fields[k].Bool? else value.fields[k].Object?
  {
    assert [k] + [] == [k];
    StandsStep(value, [], k);
  }

  lemma NodeBelow(value: Json, connections: set<string>, leaves: set<string>, k: string, path: seq<string>)
    requires value.Object? && "subcategories" in value.fields && value.fields["subcategories"].Object?
    requires k in value.fields["subcategories"].fields
    requires NodeFits(value, ["subcategories", k] + path, connections, leaves)
    ensures path == [] ==> k in leaves
    ensures k in leaves ==> NodeFits(value.fields["subcategories"].fields[k], path, connections, {})
  {
    var long := ["subcategories", k] + path;
    assert long == ["subcategories"] + ([k] + path) && long[2..] == path;
    StandsStep(value, [k] + path, "subcategories");
    StandsStep(value.fields["subcategories"], path, k);
  }

  lemma FitsConnections(value: Json, connections: set<string>, leaves: set<string>)
    requires value.Object? && forall path :: NodeFits(value, path, connections, leaves)
    ensures Switches(Get(value.fields, "connections"), connections, true)
  {
    if "connections" in value.fields {
      NodeKeys(value, connections, leaves, "connections");
    }
    forall k | StandsAt(value, ["connections", k]).Some?
      ensures k in connections && Fits(StandsAt(value, ["connections", k]).value, FlagOrNull)
    {
      assert NodeFits(value, ["connections", k], connections, leaves);
    }
    FitsSwitches(value, "connections", connections, true);
  }

  lemma {:induction false} FitsValidNode(value: Json, catalog: Catalog, leaves: set<string>)
    requires forall path :: NodeFits(value, path, catalog.connections, leaves)
    ensures ValidNode(value, catalog, leaves)
    decreases value
  {
    assert NodeFits(value, [], catalog.connections, leaves);
    forall k | k in value.fields
      ensures k in {"enable", "connections", "subcategories"}
      ensures if k == "enable" then value.fields[k].Bool? else value.fields[k].Object?
    {
      NodeKeys(value, catalog.connections, leaves, k);
    }
    FitsConnections(value, catalog.connections, leaves);
    if "subcategories" in value.fields {
      var children := value.fields["subcategories"].fields;
      forall k | k in children
        ensures k in leaves && ValidNode(children[k], catalog, {})
      {
        NodeBelow(value, catalog.connections, leaves, k, []);
        forall path
          ensures NodeFits(children[k], path, catalog.connections, {})
        {
          NodeBelow(value, catalog.connections, leaves, k, path);
        }
        FitsValidNode(children[k], catalog, {});
      }
    }
  }

  predicate ShapeFits(settings: Fields, path: seq<string>, catalog: Catalog)
  {
    var found := StandsAt(Object(settings), path);
    found.Some? ==> Fits(found.value, ShapeAt(path, catalog))
  }

  lemma ValidShapeFits(settings: Fields, catalog: Catalog, path: seq<string>)
    requires Valid(settings, catalog)
    ensures ShapeFits(settings, path, catalog)
  {
    if path != [] && StandsAt(Object(settings), path).Some? {
      var next, rest := settings[path[0]], path[1..];
      if path[0] == "personal" {
        StandsLeaf(next, rest);
      } else if rest != [] && path[0] == "connections" {
        SwitchesFit(next, catalog.connections, false, rest);
      } else if rest != [] {
        assert path[2..] == rest[1..];
        ValidNodeFits(next.fields[rest[0]], catalog, catalog.categories[rest[0]], rest[1..]);
      }
    }
  }

  lemma TopKeys(settings: Fields, catalog: Catalog, k: string)
    requires ShapeFits(settings, [k], catalog) && k in settings
    ensures k in {"connections", "categories", "personal"}
    ensures if k == "personal" then settings[k].Bool? else settings[k].Object?
  {
    assert [k] + [] == [k];
    StandsStep(Object(settings), [], k);
  }

  lemma TopBelow(settings: Fields, catalog: Catalog, k: string, path: seq<string>)
    requires "categories" in settings && settings["categories"].Object? && k in settings["categories"].fields
    requires ShapeFits(settings, ["categories", k] + path, catalog)
    ensures path == [] ==> k in catalog.categories
    ensures k in catalog.categories ==>
              NodeFits(settings["categories"].fields[k], path, catalog.connections, catalog.categories[k])
  {
    var long := ["categories", k] + path;
    assert long == ["categories"] + ([k] + path) && long[2..] == path;
    StandsStep(Object(settings), [k] + path, "categories");
    StandsStep(settings["categories"], path, k);
  }

  lemma TopConnections(settings: Fields, catalog: Catalog)
    requires forall path :: ShapeFits(settings, path, catalog)
    ensures Switches(Get(settings, "connections"), catalog.connections, false)
  {
    if "connections" in settings {
      TopKeys(settings, catalog, "connections");
    }
    var value := Object(settings);
    forall k | StandsAt(value, ["connections", k]).Some?
      ensures k in catalog.connections && Fits(StandsAt(value, ["connections", k]).value, Flag)
    {
      assert ShapeFits(settings, ["connections", k], catalog);
    }
    FitsSwitches(value, "connections", catalog.connections, false);
  }

  lemma ShapesFitValid(settings: Fields, catalog: Catalog)
    requires forall path :: ShapeFits(settings, path, catalog)
    ensures Valid(settings, catalog)
  {
    forall k | k in settings
      ensures k in {"connections", "categories", "personal"}
      ensures if k == "personal" then settings[k].Bool? else settings[k].Object?
    {
      TopKeys(settings, catalog, k);
    }
    TopConnections(settings, catalog);
    var categories := Get(settings, "categories").fields;
    forall k | k in categories
      ensures k in catalog.categories && ValidNode(categories[k], catalog, catalog.categories[k])
    {
      TopBelow(settings, catalog, k, []);
      forall path
        ensures NodeFits(categories[k], path, catalog.connections, catalog.categories[k])
      {
        TopBelow(settings, catalog, k, path);
      }
      FitsValidNode(categories[k], catalog, catalog.categories[k]);
    }
  }

  /** Settings are valid exactly when whatever stands in them, at any path of keys, has the shape for that path. */
  lemma ValidExactly(settings: Fields, catalog: Catalog)
    ensures Valid(settings, catalog) <==> forall path :: ShapeFits(settings, path, catalog)
  {
    if Valid(settings, catalog) {
      forall path
        ensures ShapeFits(settings, path, catalog)
      {
        ValidShapeFits(settings, catalog, path);
      }
    }
    if forall path :: ShapeFits(settings, path, catalog) {
      ShapesFitValid(settings, catalog);
    }
  }

  // ---- Planning ----

  /** The fields of a nested object, none when it is missing. */
  function Sub(fields: Fields, key: string): Fields
  {
    if key in fields && fields[key].Object? then fields[key].fields else map[]
  }

  predicate On(fields: Fields, key: string, default: bool)
  {
    if key in fields then fields[key] == Bool(true) else default
  }

  predicate Allowed(settings: Fields, connection: string, category: string, subcategory: string)
  {
    var parent := Sub(Sub(settings, "categories"), category);
    var child := Sub(Sub(parent, "subcategories"), subcategory);
    && On(Sub(settings, "connections"), connection, false)
    && On(parent, "enable", true) && On(child, "enable", true)
    && var inner, outer := Sub(child, "connections"), Sub(parent, "connections");
      if connection in inner && inner[connection] != Null then inner[connection] == Bool(true)
      else if connection in outer && outer[connection] != Null then outer[connection] == Bool(true)
      else true
  }

  function Plan(settings: Fields, routes: seq<Route>, connection: Option<string>): seq<Route>
  {
    if routes == [] then []
    else
      var r := routes[0];
      (if (connection.None? || r.connection == connection.value)
          && Allowed(settings, r.connection, r.category, r.subcategory)
       then [r] else [])
      + Plan(settings, routes[1..], connection)
  }

  // ---- Choices, key by key ----

  /** The five keys a decision depends on, each as it is set or not. */
  datatype Choices = Choices(
    gate: Option<Json>,
    parentEnable: Option<Json>, childEnable: Option<Json>,
    parentSwitch: Option<Json>, childSwitch: Option<Json>)

  function Lookup(fields: Fields, key: string): Option<Json>
  {
    if key in fields then Some(fields[key]) else None
  }

  function ChoicesOf(settings: Fields, connection: string, category: string, subcategory: string): Choices
  {
    var parent := Sub(Sub(settings, "categories"), category);
    var child := Sub(Sub(parent, "subcategories"), subcategory);
    Choices(
      Lookup(Sub(settings, "connections"), connection),
      Lookup(parent, "enable"), Lookup(child, "enable"),
      Lookup(Sub(parent, "connections"), connection), Lookup(Sub(child, "connections"), connection))
  }

  function OrElse(override: Option<Json>, default: Option<Json>): Option<Json>
  {
    if override.Some? then override else default
  }

  /** Each key on its own: the override if there is one, else the default. */
  function Layer(d: Choices, o: Choices): Choices
  {
    Choices(
      OrElse(o.gate, d.gate),
      OrElse(o.parentEnable, d.parentEnable), OrElse(o.childEnable, d.childEnable),
      OrElse(o.parentSwitch, d.parentSwitch), OrElse(o.childSwitch, d.childSwitch))
  }

  predicate Decide(c: Choices)
  {
    && c.gate == Some(Bool(true))
    && (c.parentEnable.None? || c.parentEnable == Some(Bool(true)))
    && (c.childEnable.None? || c.childEnable == Some(Bool(true)))
    && (if c.childSwitch.Some? && c.childSwitch != Some(Null) then c.childSwitch == Some(Bool(true))
        else c.parentSwitch.Some? && c.parentSwitch != Some(Null) ==> c.parentSwitch == Some(Bool(true)))
  }

  lemma AllowedDecides(settings: Fields, connection: string, category: string, subcategory: string)
    ensures Allowed(settings, connection, category, subcategory)
            == Decide(ChoicesOf(settings, connection, category, subcategory))
  {
  }

  // ---- What merging does to one key ----

  /** `base` and `overrides` agree on whether `key` holds an object. */
  predicate AlikeAt(base: Fields, overrides: Fields, key: string)
  {
    key in base && key in overrides ==> base[key].Object? == overrides[key].Object?
  }

  lemma SubMerge(base: Fields, overrides: Fields, key: string)
    requires AlikeAt(base, overrides, key)
    ensures Sub(Merge(base, overrides), key) == Merge(Sub(base, key), Sub(overrides, key))
  {
    MergeEmpty(Sub(base, key), Sub(overrides, key));
  }

  lemma MergeEmpty(base: Fields, overrides: Fields)
    ensures base == map[] ==> Merge(base, overrides) == overrides
    ensures overrides == map[] ==> Merge(base, overrides) == base
  {
  }

  lemma LookupMerge(base: Fields, overrides: Fields, key: string)
    requires key in overrides ==> !overrides[key].Object?
    ensures Lookup(Merge(base, overrides), key) == OrElse(Lookup(overrides, key), Lookup(base, key))
  {
  }

  lemma ValidParts(s: Fields, catalog: Catalog, category: string, subcategory: string)
    requires Valid(s, catalog)
    ensures "connections" in s ==> s["connections"].Object?
    ensures "categories" in s ==> s["categories"].Object?
    ensures forall k :: k in Sub(s, "connections") ==> !Sub(s, "connections")[k].Object?
    ensures forall k :: k in Sub(s, "categories") ==> Sub(s, "categories")[k].Object?
    ensures var parent := Sub(Sub(s, "categories"), category);
            && PlainNode(parent)
            && (forall k :: k in Sub(parent, "subcategories") ==> Sub(parent, "subcategories")[k].Object?)
            && PlainNode(Sub(Sub(parent, "subcategories"), subcategory))
  {
    var categories := Sub(s, "categories");
    if category in categories {
      NodeParts(categories[category], catalog, catalog.categories[category], subcategory);
    }
  }

  lemma NodeParts(node: Json, catalog: Catalog, leaves: set<string>, subcategory: string)
    requires ValidNode(node, catalog, leaves)
    ensures PlainNode(node.fields)
    ensures var children := Sub(node.fields, "subcategories");
            (forall k :: k in children ==> children[k].Object?) && PlainNode(Sub(children, subcategory))
  {
    var children := Sub(node.fields, "subcategories");
    if subcategory in children {
      assert ValidNode(children[subcategory], catalog, {});
    }
  }

  /** What every node has, at either depth. */
  predicate PlainNode(node: Fields)
  {
    && ("enable" in node ==> !node["enable"].Object?)
    && ("connections" in node ==> node["connections"].Object?)
    && ("subcategories" in node ==> node["subcategories"].Object?)
    && forall k :: k in Sub(node, "connections") ==> !Sub(node, "connections")[k].Object?
  }

  /** Merging the settings is merging each of the five keys. */
  lemma MergeLayersChoices(d: Fields, o: Fields, catalog: Catalog, connection: string, category: string,
      subcategory: string)
    requires Valid(d, catalog) && Valid(o, catalog)
    ensures ChoicesOf(Merge(d, o), connection, category, subcategory)
            == Layer(ChoicesOf(d, connection, category, subcategory), ChoicesOf(o, connection, category, subcategory))
  {
    ValidParts(d, catalog, category, subcategory);
    ValidParts(o, catalog, category, subcategory);
    SubMerge(d, o, "connections");
    LookupMerge(Sub(d, "connections"), Sub(o, "connections"), connection);
    SubMerge(d, o, "categories");
    SubMerge(Sub(d, "categories"), Sub(o, "categories"), category);
    var dp, op := Sub(Sub(d, "categories"), category), Sub(Sub(o, "categories"), category);
    MergeLayersNode(dp, op, connection);
    SubMerge(dp, op, "subcategories");
    SubMerge(Sub(dp, "subcategories"), Sub(op, "subcategories"), subcategory);
    MergeLayersNode(Sub(Sub(dp, "subcategories"), subcategory), Sub(Sub(op, "subcategories"), subcategory), connection);
  }

  lemma MergeLayersNode(d: Fields, o: Fields, connection: string)
    requires PlainNode(d) && PlainNode(o)
    ensures Lookup(Merge(d, o), "enable") == OrElse(Lookup(o, "enable"), Lookup(d, "enable"))
    ensures Lookup(Sub(Merge(d, o), "connections"), connection)
            == OrElse(Lookup(Sub(o, "connections"), connection), Lookup(Sub(d, "connections"), connection))
  {
    LookupMerge(d, o, "enable");
    SubMerge(d, o, "connections");
    LookupMerge(Sub(d, "connections"), Sub(o, "connections"), connection);
  }

  function LayeredPlan(d: Fields, o: Fields, routes: seq<Route>, connection: Option<string>): seq<Route>
  {
    if routes == [] then []
    else
      var r := routes[0];
      var decision := Decide(Layer(ChoicesOf(d, r.connection, r.category, r.subcategory),
                                   ChoicesOf(o, r.connection, r.category, r.subcategory)));
      (if (connection.None? || r.connection == connection.value) && decision then [r] else [])
      + LayeredPlan(d, o, routes[1..], connection)
  }

  /** Planning on the merged settings is planning by looking each key up in two layers. */
  lemma {:induction false} MergePlansByLayers(
      d: Fields, o: Fields, catalog: Catalog, routes: seq<Route>, connection: Option<string>)
    requires Valid(d, catalog) && Valid(o, catalog)
    ensures Plan(Merge(d, o), routes, connection) == LayeredPlan(d, o, routes, connection)
  {
    if routes != [] {
      var r := routes[0];
      MergeLayersChoices(d, o, catalog, r.connection, r.category, r.subcategory);
      AllowedDecides(Merge(d, o), r.connection, r.category, r.subcategory);
      MergePlansByLayers(d, o, catalog, routes[1..], connection);
    }
  }

  // ---- The merge keeps validity ----

  lemma MergeSwitches(a: Fields, b: Fields, names: set<string>, nullable: bool)
    requires Switches(Object(a), names, nullable) && Switches(Object(b), names, nullable)
    ensures Switches(Object(Merge(a, b)), names, nullable)
  {
  }

  lemma {:induction false} MergeNode(a: Fields, b: Fields, catalog: Catalog, leaves: set<string>)
    requires ValidNode(Object(a), catalog, leaves) && ValidNode(Object(b), catalog, leaves)
    ensures ValidNode(Object(Merge(a, b)), catalog, leaves)
    decreases Object(b)
  {
    var m := Merge(a, b);
    MergeSwitches(Sub(a, "connections"), Sub(b, "connections"), catalog.connections, true);
    SubMerge(a, b, "connections");
    var x, y := Sub(a, "subcategories"), Sub(b, "subcategories");
    SubMerge(a, b, "subcategories");
    forall k | k in Sub(m, "subcategories")
      ensures k in leaves && ValidNode(Sub(m, "subcategories")[k], catalog, {})
    {
      if k in x && k in y {
        assert y[k] < b["subcategories"] < Object(b) by {
          Inside(b, "subcategories");
          Inside(y, k);
        }
        MergeNode(x[k].fields, y[k].fields, catalog, {});
      }
    }
  }

  /** Valid overrides on valid defaults give valid settings. */
  lemma MergeKeepsValid(d: Fields, o: Fields, catalog: Catalog)
    requires Valid(d, catalog) && Valid(o, catalog)
    ensures Valid(Merge(d, o), catalog)
  {
    var m := Merge(d, o);
    MergeSwitches(Sub(d, "connections"), Sub(o, "connections"), catalog.connections, false);
    SubMerge(d, o, "connections");
    SubMerge(d, o, "categories");
    var x, y := Sub(d, "categories"), Sub(o, "categories");
    forall k | k in Sub(m, "categories")
      ensures k in catalog.categories && ValidNode(Sub(m, "categories")[k], catalog, catalog.categories[k])
    {
      if k in x && k in y {
        MergeNode(x[k].fields, y[k].fields, catalog, catalog.categories[k]);
      }
    }
  }

  /** Merging the same overrides once more changes nothing, whatever the two hold. */
  lemma {:induction false} MergeIdempotent(a: Fields, b: Fields)
    ensures Merge(Merge(a, b), b) == Merge(a, b)
    decreases Object(b)
  {
    forall k | k in b && b[k].Object?
      ensures Merge(b[k].fields, b[k].fields) == b[k].fields
      ensures k in a && a[k].Object? ==>
              Merge(Merge(a[k].fields, b[k].fields), b[k].fields) == Merge(a[k].fields, b[k].fields)
    {
      Inside(b, k);
      MergeSelf(b[k].fields);
      if k in a && a[k].Object? {
        MergeIdempotent(a[k].fields, b[k].fields);
      }
    }
  }

  lemma {:induction false} MergeSelf(b: Fields)
    ensures Merge(b, b) == b
    decreases Object(b)
  {
    forall k | k in b && b[k].Object?
      ensures Merge(b[k].fields, b[k].fields) == b[k].fields
    {
      Inside(b, k);
      MergeSelf(b[k].fields);
    }
  }

  /** Where both have a key, either both or neither hold an object there, at every depth. */
  predicate Alike(a: Fields, b: Fields)
    decreases Object(b)
  {
    forall k :: k in a && k in b ==>
      a[k].Object? == b[k].Object? && (a[k].Object? ==> (Inside(b, k); Alike(a[k].fields, b[k].fields)))
  }

  lemma {:induction false} AlikeMergeAssociative(a: Fields, b: Fields, c: Fields)
    requires Alike(a, b) && Alike(b, c) && Alike(a, c)
    ensures Merge(Merge(a, b), c) == Merge(a, Merge(b, c))
    decreases Object(c)
  {
    forall k | k in a && k in b && k in c && a[k].Object?
      ensures Merge(Merge(a[k].fields, b[k].fields), c[k].fields) == Merge(a[k].fields, Merge(b[k].fields, c[k].fields))
    {
      Inside(c, k);
      AlikeMergeAssociative(a[k].fields, b[k].fields, c[k].fields);
    }
  }

  lemma {:induction false} ValidNodesAlike(a: Fields, b: Fields, catalog: Catalog, leaves: set<string>)
    requires ValidNode(Object(a), catalog, leaves) && ValidNode(Object(b), catalog, leaves)
    ensures Alike(a, b)
    decreases Object(b)
  {
    var x, y := Sub(a, "subcategories"), Sub(b, "subcategories");
    forall k | k in x && k in y
      ensures x[k].Object? && y[k].Object? && Alike(x[k].fields, y[k].fields)
    {
      assert y[k] < b["subcategories"] < Object(b) by {
        Inside(b, "subcategories");
        Inside(y, k);
      }
      ValidNodesAlike(x[k].fields, y[k].fields, catalog, {});
    }
    assert Alike(x, y);
    assert Alike(Sub(a, "connections"), Sub(b, "connections"));
  }

  lemma ValidAlike(a: Fields, b: Fields, catalog: Catalog)
    requires Valid(a, catalog) && Valid(b, catalog)
    ensures Alike(a, b)
  {
    var x, y := Sub(a, "categories"), Sub(b, "categories");
    forall k | k in x && k in y
      ensures x[k].Object? && y[k].Object? && Alike(x[k].fields, y[k].fields)
    {
      ValidNodesAlike(x[k].fields, y[k].fields, catalog, catalog.categories[k]);
    }
    assert Alike(x, y);
    assert Alike(Sub(a, "connections"), Sub(b, "connections"));
  }

  /** Three layers of valid settings may be merged in either order of steps. */
  lemma MergeAssociative(a: Fields, b: Fields, c: Fields, catalog: Catalog)
    requires Valid(a, catalog) && Valid(b, catalog) && Valid(c, catalog)
    ensures Merge(Merge(a, b), c) == Merge(a, Merge(b, c))
  {
    ValidAlike(a, b, catalog);
    ValidAlike(b, c, catalog);
    ValidAlike(a, c, catalog);
    AlikeMergeAssociative(a, b, c);
  }

  /** `y` has all keys of `x`, and so at every depth where both hold objects. */
  predicate Covers(x: Fields, y: Fields)
    decreases Object(y)
  {
    forall k :: k in x ==>
      k in y && (x[k].Object? && y[k].Object? ==> (Inside(y, k); Covers(x[k].fields, y[k].fields)))
  }

  lemma {:induction false} CoversExactly(x: Fields, y: Fields)
    ensures Merge(x, y) == y <==> Covers(x, y)
    decreases Object(y)
  {
    forall k | k in x && k in y && x[k].Object? && y[k].Object?
      ensures Merge(x[k].fields, y[k].fields) == y[k].fields <==> Covers(x[k].fields, y[k].fields)
    {
      Inside(y, k);
      CoversExactly(x[k].fields, y[k].fields);
    }
    var m := Merge(x, y);
    if Covers(x, y) {
      assert m.Keys == y.Keys;
      forall k | k in y
        ensures m[k] == y[k]
      {
      }
    }
    if m == y {
      forall k | k in x
        ensures k in y && (x[k].Object? && y[k].Object? ==> Merge(x[k].fields, y[k].fields) == y[k].fields)
      {
        assert k in m;
        assert x[k].Object? && y[k].Object? ==> m[k] == Object(Merge(x[k].fields, y[k].fields));
      }
    }
  }

  /** Wherever `a` and `c` hold objects and `b` something else, `c` covers `a`, at every depth. */
  predicate Associates(a: Fields, b: Fields, c: Fields)
    decreases Object(c)
  {
    forall k :: k in a && k in b && k in c && a[k].Object? && c[k].Object? ==>
      (Inside(c, k);
       if b[k].Object? then Associates(a[k].fields, b[k].fields, c[k].fields) else Covers(a[k].fields, c[k].fields))
  }

  /** The two orders of merging at one key. */
  function LeftAt(a: Fields, b: Fields, c: Fields, k: string): Option<Json> { Lookup(Merge(Merge(a, b), c), k) }

  function RightAt(a: Fields, b: Fields, c: Fields, k: string): Option<Json> { Lookup(Merge(a, Merge(b, c)), k) }

  predicate Decisive(a: Fields, b: Fields, c: Fields, k: string)
  {
    k in a && k in b && k in c && a[k].Object? && c[k].Object?
  }

  lemma SameAtAllKeys(x: Fields, y: Fields)
    ensures x == y <==> forall k :: Lookup(x, k) == Lookup(y, k)
  {
    if forall k :: Lookup(x, k) == Lookup(y, k) {
      forall k
        ensures k in x <==> k in y
        ensures k in x ==> x[k] == y[k]
      {
        assert Lookup(x, k) == Lookup(y, k);
      }
    }
  }

  /** What `Associates` asks of one key. */
  predicate AssociatesAt(a: Fields, b: Fields, c: Fields, k: string)
  {
    Decisive(a, b, c, k) ==>
      if b[k].Object? then Associates(a[k].fields, b[k].fields, c[k].fields) else Covers(a[k].fields, c[k].fields)
  }

  lemma AssociatesByKey(a: Fields, b: Fields, c: Fields)
    ensures Associates(a, b, c) <==> forall k :: AssociatesAt(a, b, c, k)
  {
    if forall k :: AssociatesAt(a, b, c, k) {
      forall k | Decisive(a, b, c, k)
        ensures if b[k].Object? then Associates(a[k].fields, b[k].fields, c[k].fields)
                else Covers(a[k].fields, c[k].fields)
      {
        assert AssociatesAt(a, b, c, k);
      }
    }
  }

  lemma {:induction false} AgreesAtExactly(a: Fields, b: Fields, c: Fields, k: string)
    ensures LeftAt(a, b, c, k) == RightAt(a, b, c, k) <==> AssociatesAt(a, b, c, k)
    decreases Object(c), 0
  {
    if Decisive(a, b, c, k) {
      Inside(c, k);
      if b[k].Object? {
        MergeAssociativeExactly(a[k].fields, b[k].fields, c[k].fields);
      } else {
        CoversExactly(a[k].fields, c[k].fields);
      }
    }
  }

  /** Any three objects merge alike in either order of steps exactly when this holds. */
  lemma {:induction false} MergeAssociativeExactly(a: Fields, b: Fields, c: Fields)
    ensures Merge(Merge(a, b), c) == Merge(a, Merge(b, c)) <==> Associates(a, b, c)
    decreases Object(c), 1
  {
    SameAtAllKeys(Merge(Merge(a, b), c), Merge(a, Merge(b, c)));
    AssociatesByKey(a, b, c);
    forall k
      ensures Lookup(Merge(Merge(a, b), c), k) == Lookup(Merge(a, Merge(b, c)), k) <==> AssociatesAt(a, b, c, k)
    {
      AgreesAtExactly(a, b, c, k);
    }
  }

  /** Three objects, none of which validation would accept, that do not merge alike. */
  lemma MergeNotAssociativeInGeneral()
    ensures var a: Fields, b: Fields := map["x" := Object(map["y" := Null])], map["x" := Null];
            var c: Fields := map["x" := EMPTY];
            Merge(Merge(a, b), c) != Merge(a, Merge(b, c))
  {
    var a: Fields, b: Fields, c: Fields := map["x" := Object(map["y" := Null])], map["x" := Null], map["x" := EMPTY];
    assert Decisive(a, b, c, "x") && "y" in a["x"].fields && !Covers(a["x"].fields, map[]);
    MergeAssociativeExactly(a, b, c);
  }

  // ---- Changing one choice ----

  datatype Command =
    | Connection(target: string)
    | Personal
    | Category(parts: seq<string>)
    | Source(connection: string, parts: seq<string>)

  datatype Setting = TurnOn | TurnOff | Default | Inherit

  /** A category path, already split at `/`, that the catalog knows. */
  predicate KnownCategory(parts: seq<string>, catalog: Catalog)
  {
    && 1 <= |parts| <= 2 && parts[0] in catalog.categories
    && (|parts| == 2 ==> parts[1] in catalog.categories[parts[0]])
  }

  predicate Known(command: Command, catalog: Catalog)
  {
    match command
    case Connection(target) => target in catalog.connections
    case Personal => true
    case Category(parts) => KnownCategory(parts, catalog)
    case Source(connection, parts) => KnownCategory(parts, catalog) && connection in catalog.connections
  }

  predicate IsPlace(parts: seq<string>, catalog: Catalog)
  {
    exists category :: category in catalog.categories && IsWithin(parts, category, catalog.categories[category])
  }

  predicate IsWithin(parts: seq<string>, category: string, subcategories: set<string>)
  {
    parts == [category] || exists sub :: sub in subcategories && parts == [category, sub]
  }

  /** The commands that are known name connections, categories and their subcategories of the catalog. */
  lemma KnownExactly(catalog: Catalog, connection: string, parts: seq<string>)
    ensures Known(Personal, catalog)
    ensures Known(Connection(connection), catalog) <==> connection in catalog.connections
    ensures Known(Category(parts), catalog) <==> IsPlace(parts, catalog)
    ensures Known(Source(connection, parts), catalog) <==>
            IsPlace(parts, catalog) && connection in catalog.connections
  {
    if KnownCategory(parts, catalog) {
      assert |parts| == 2 ==> parts == [parts[0], parts[1]];
      assert |parts| == 1 ==> parts == [parts[0]];
      assert IsWithin(parts, parts[0], catalog.categories[parts[0]]);
    }
  }

  /** What the command line accepts: only a source may be inherited. */
  predicate Accepted(command: Command, setting: Setting)
  {
    setting == Inherit ==> command.Source?
  }

  function NodePath(parts: seq<string>): seq<string>
  {
    if |parts| == 1 then ["categories", parts[0]]
    else if |parts| == 2 then ["categories", parts[0], "subcategories", parts[1]]
    else []
  }

  function PathOf(command: Command): seq<string>
  {
    match command
    case Connection(_) => ["connections"]
    case Personal => []
    case Category(parts) => NodePath(parts)
    case Source(_, parts) => NodePath(parts) + ["connections"]
  }

  function KeyOf(command: Command): string
  {
    match command
    case Connection(target) => target
    case Personal => "personal"
    case Category(_) => "enable"
    case Source(connection, _) => connection
  }

  function ValueOf(setting: Setting): Option<Json>
  {
    match setting
    case TurnOn => Some(Bool(true))
    case TurnOff => Some(Bool(false))
    case Inherit => Some(Null)
    case Default => None
  }

  /** Sets or removes a key, creating the objects on the way to it. */
  function Edit(fields: Fields, path: seq<string>, key: string, value: Option<Json>): Fields
    decreases |path|
  {
    if path == [] then (if value.Some? then fields[key := value.value] else fields - {key})
    else fields[path[0] := Object(Edit(Sub(fields, path[0]), path[1..], key, value))]
  }

  function Change(overrides: Fields, command: Command, setting: Setting): Fields
  {
    Edit(overrides, PathOf(command), KeyOf(command), ValueOf(setting))
  }

  /** The decisions a command is about. */
  predicate InScope(command: Command, connection: string, category: string, subcategory: string)
  {
    match command
    case Connection(target) => target == connection
    case Personal => false
    case Category(parts) => parts == [category] || parts == [category, subcategory]
    case Source(source, parts) => source == connection && (parts == [category] || parts == [category, subcategory])
  }

  /** The one key a command sets, replaced. */
  function WithChange(c: Choices, command: Command, value: Option<Json>,
                      connection: string, category: string, subcategory: string): Choices
  {
    if !InScope(command, connection, category, subcategory) then c
    else
      match command
      case Connection(_) => c.(gate := value)
      case Personal => c
      case Category(parts) => if |parts| == 1 then c.(parentEnable := value) else c.(childEnable := value)
      case Source(_, parts) => if |parts| == 1 then c.(parentSwitch := value) else c.(childSwitch := value)
  }

  lemma EditStep(fields: Fields, path: seq<string>, key: string, value: Option<Json>, other: string)
    requires path != []
    ensures Sub(Edit(fields, path, key, value), path[0]) == Edit(Sub(fields, path[0]), path[1..], key, value)
    ensures other != path[0] ==> Sub(Edit(fields, path, key, value), other) == Sub(fields, other)
    ensures other != path[0] ==> Lookup(Edit(fields, path, key, value), other) == Lookup(fields, other)
  {
  }

  /** A change of a node at `path` below `fields`: its two keys, and its children left alone. */
  lemma EditNode(node: Fields, source: bool, key: string, value: Option<Json>, connection: string)
    requires !source ==> key == "enable"
    ensures var edited := Edit(node, if source then ["connections"] else [], key, value);
            && Lookup(edited, "enable") == (if source then Lookup(node, "enable") else value)
            && Sub(edited, "subcategories") == Sub(node, "subcategories")
            && Lookup(Sub(edited, "connections"), connection)
               == (if source && key == connection then value else Lookup(Sub(node, "connections"), connection))
  {
    if source {
      EditStep(node, ["connections"], key, value, "enable");
      EditStep(node, ["connections"], key, value, "subcategories");
      assert ["connections"][1..] == [];
    }
  }

  lemma EditTop(o: Fields, path: seq<string>, key: string, value: Option<Json>)
    requires path != [] && path[0] == "categories"
    ensures Sub(Edit(o, path, key, value), "connections") == Sub(o, "connections")
    ensures Sub(Edit(o, path, key, value), "categories") == Edit(Sub(o, "categories"), path[1..], key, value)
  {
    EditStep(o, path, key, value, "connections");
  }

  lemma ChangeCategoryChoices(o: Fields, name: string, source: bool, key: string, value: Option<Json>,
                              connection: string, category: string, subcategory: string)
    requires !source ==> key == "enable"
    ensures var before := ChoicesOf(o, connection, category, subcategory);
            ChoicesOf(Edit(o, ["categories", name] + (if source then ["connections"] else []), key, value),
                      connection, category, subcategory)
            == if name != category then before
               else if !source then before.(parentEnable := value)
               else if key == connection then before.(parentSwitch := value)
               else before
  {
    var tail := if source then ["connections"] else [];
    var path := ["categories", name] + tail;
    EditTop(o, path, key, value);
    assert path[1..] == [name] + tail;
    var categories := Sub(o, "categories");
    EditStep(categories, path[1..], key, value, category);
    assert path[1..][1..] == tail;
    EditNode(Sub(categories, name), source, key, value, connection);
  }

  lemma ChangeSubcategoryChoices(o: Fields, name: string, leaf: string, source: bool, key: string, value: Option<Json>,
                                 connection: string, category: string, subcategory: string)
    requires !source ==> key == "enable"
    ensures var before := ChoicesOf(o, connection, category, subcategory);
            var path := ["categories", name, "subcategories", leaf] + if source then ["connections"] else [];
            ChoicesOf(Edit(o, path, key, value),
                      connection, category, subcategory)
            == if name != category || leaf != subcategory then before
               else if !source then before.(childEnable := value)
               else if key == connection then before.(childSwitch := value)
               else before
  {
    var tail := if source then ["connections"] else [];
    var path := ["categories", name, "subcategories", leaf] + tail;
    EditTop(o, path, key, value);
    assert path[1..] == [name, "subcategories", leaf] + tail;
    var categories := Sub(o, "categories");
    EditStep(categories, path[1..], key, value, category);
    assert path[1..][1..] == ["subcategories", leaf] + tail;
    var node := Sub(categories, name);
    EditStep(node, path[1..][1..], key, value, "enable");
    EditStep(node, path[1..][1..], key, value, "connections");
    assert path[1..][1..][1..] == [leaf] + tail;
    var children := Sub(node, "subcategories");
    EditStep(children, [leaf] + tail, key, value, subcategory);
    assert ([leaf] + tail)[1..] == tail;
    EditNode(Sub(children, leaf), source, key, value, connection);
  }

  lemma ChangeTopChoices(o: Fields, command: Command, setting: Setting, connection: string, category: string,
      subcategory: string)
    requires command.Connection? || command.Personal?
    ensures ChoicesOf(Change(o, command, setting), connection, category, subcategory)
            == WithChange(ChoicesOf(o, connection, category, subcategory), command, ValueOf(setting),
                          connection, category, subcategory)
  {
    var value := ValueOf(setting);
    if command.Connection? {
      EditStep(o, ["connections"], command.target, value, "categories");
      assert ["connections"][1..] == [];
    }
  }

  lemma ChangeEnableChoices(o: Fields, command: Command, setting: Setting, catalog: Catalog,
                            connection: string, category: string, subcategory: string)
    requires command.Category? && Known(command, catalog)
    ensures ChoicesOf(Change(o, command, setting), connection, category, subcategory)
            == WithChange(ChoicesOf(o, connection, category, subcategory), command, ValueOf(setting),
                          connection, category, subcategory)
  {
    var parts, value := command.parts, ValueOf(setting);
    assert NodePath(parts) == NodePath(parts) + [];
    if |parts| == 1 {
      ChangeCategoryChoices(o, parts[0], false, "enable", value, connection, category, subcategory);
    } else {
      ChangeSubcategoryChoices(o, parts[0], parts[1], false, "enable", value, connection, category, subcategory);
    }
  }

  lemma ChangeSourceChoices(o: Fields, command: Command, setting: Setting, catalog: Catalog,
                            connection: string, category: string, subcategory: string)
    requires command.Source? && Known(command, catalog)
    ensures ChoicesOf(Change(o, command, setting), connection, category, subcategory)
            == WithChange(ChoicesOf(o, connection, category, subcategory), command, ValueOf(setting),
                          connection, category, subcategory)
  {
    var parts, value := command.parts, ValueOf(setting);
    if |parts| == 1 {
      ChangeCategoryChoices(o, parts[0], true, KeyOf(command), value, connection, category, subcategory);
    } else {
      ChangeSubcategoryChoices(o, parts[0], parts[1], true, KeyOf(command), value, connection, category, subcategory);
    }
  }

  /** A change sets the one key it names and leaves the other four, for every decision. */
  lemma ChangeSetsOneChoice(o: Fields, command: Command, setting: Setting, catalog: Catalog,
                            connection: string, category: string, subcategory: string)
    requires Known(command, catalog)
    ensures ChoicesOf(Change(o, command, setting), connection, category, subcategory)
            == WithChange(ChoicesOf(o, connection, category, subcategory), command, ValueOf(setting),
                          connection, category, subcategory)
  {
    if command.Category? {
      ChangeEnableChoices(o, command, setting, catalog, connection, category, subcategory);
    } else if command.Source? {
      ChangeSourceChoices(o, command, setting, catalog, connection, category, subcategory);
    } else {
      ChangeTopChoices(o, command, setting, connection, category, subcategory);
    }
  }

  lemma SwitchValid(values: Fields, key: string, setting: Setting, names: set<string>, nullable: bool)
    requires Switches(Object(values), names, nullable) && key in names && (setting == Inherit ==> nullable)
    ensures Switches(Object(Edit(values, [], key, ValueOf(setting))), names, nullable)
  {
  }

  lemma NodeChangeValid(node: Fields, source: bool, key: string, setting: Setting, catalog: Catalog,
      leaves: set<string>)
    requires ValidNode(Object(node), catalog, leaves)
    requires if source then key in catalog.connections else key == "enable" && setting != Inherit
    ensures var path := if source then ["connections"] else [];
            ValidNode(Object(Edit(node, path, key, ValueOf(setting))), catalog, leaves)
  {
    if source {
      EditStep(node, ["connections"], key, ValueOf(setting), "subcategories");
      SwitchValid(Sub(node, "connections"), key, setting, catalog.connections, true);
      assert ["connections"][1..] == [];
    }
  }

  lemma EmptyNodeValid(catalog: Catalog, leaves: set<string>)
    ensures ValidNode(EMPTY, catalog, leaves)
  {
  }

  lemma LeafChangeValid(node: Fields, leaf: string, source: bool, key: string, setting: Setting, catalog: Catalog,
      leaves: set<string>)
    requires ValidNode(Object(node), catalog, leaves) && leaf in leaves
    requires if source then key in catalog.connections else key == "enable" && setting != Inherit
    ensures var path := ["subcategories", leaf] + if source then ["connections"] else [];
            ValidNode(Object(Edit(node, path, key, ValueOf(setting))), catalog, leaves)
  {
    var tail := if source then ["connections"] else [];
    var path := ["subcategories", leaf] + tail;
    var children := Sub(node, "subcategories");
    assert path[1..] == [leaf] + tail && ([leaf] + tail)[1..] == tail;
    EmptyNodeValid(catalog, {});
    NodeChangeValid(Sub(children, leaf), source, key, setting, catalog, {});
    EditStep(node, path, key, ValueOf(setting), "connections");
    EditStep(node, path, key, ValueOf(setting), "enable");
    forall k | k in Edit(children, [leaf] + tail, key, ValueOf(setting))
      ensures k in leaves && ValidNode(Edit(children, [leaf] + tail, key, ValueOf(setting))[k], catalog, {})
    {
      if k != leaf {
        EditStep(children, [leaf] + tail, key, ValueOf(setting), k);
      }
    }
  }

  /** An accepted command on valid overrides leaves them valid. */
  lemma ChangeKeepsValid(o: Fields, command: Command, setting: Setting, catalog: Catalog)
    requires Valid(o, catalog) && Known(command, catalog) && Accepted(command, setting)
    ensures Valid(Change(o, command, setting), catalog)
  {
    var value := ValueOf(setting);
    if command.Connection? {
      assert ["connections"][1..] == [];
      EditStep(o, ["connections"], command.target, value, "categories");
      EditStep(o, ["connections"], command.target, value, "personal");
      SwitchValid(Sub(o, "connections"), command.target, setting, catalog.connections, false);
    } else if !command.Personal? {
      var parts, source := command.parts, command.Source?;
      var tail := if source then ["connections"] else [];
      var path := PathOf(command);
      var categories := Sub(o, "categories");
      var leaves := catalog.categories[parts[0]];
      EmptyNodeValid(catalog, leaves);
      EditStep(o, path, KeyOf(command), value, "connections");
      EditStep(o, path, KeyOf(command), value, "personal");
      assert path[1..][0] == parts[0];
      if |parts| == 1 {
        assert path[1..][1..] == tail;
        NodeChangeValid(Sub(categories, parts[0]), source, KeyOf(command), setting, catalog, leaves);
      } else {
        assert path[1..][1..] == ["subcategories", parts[1]] + tail;
        LeafChangeValid(Sub(categories, parts[0]), parts[1], source, KeyOf(command), setting, catalog, leaves);
      }
      CategoryChangeValid(categories, parts[0], path[1..], KeyOf(command), value, catalog);
    }
  }

  lemma CategoryChangeValid(categories: Fields, name: string, path: seq<string>, key: string, value: Option<Json>,
      catalog: Catalog)
    requires path != [] && path[0] == name && name in catalog.categories
    requires categories.Keys <= catalog.categories.Keys
    requires forall k :: k in categories ==> ValidNode(categories[k], catalog, catalog.categories[k])
    requires ValidNode(Object(Edit(Sub(categories, name), path[1..], key, value)), catalog, catalog.categories[name])
    ensures var edited := Edit(categories, path, key, value);
            && edited.Keys <= catalog.categories.Keys
            && forall k :: k in edited ==> ValidNode(edited[k], catalog, catalog.categories[k])
  {
  }

  // ---- What a change does to the plan ----

  predicate Planned(d: Fields, o: Fields, r: Route)
  {
    Allowed(Merge(d, o), r.connection, r.category, r.subcategory)
  }

  lemma PlannedDecides(d: Fields, o: Fields, catalog: Catalog, r: Route)
    requires Valid(d, catalog) && Valid(o, catalog)
    ensures Planned(d, o, r) == Decide(Layer(ChoicesOf(d, r.connection, r.category, r.subcategory),
                                             ChoicesOf(o, r.connection, r.category, r.subcategory)))
  {
    MergeLayersChoices(d, o, catalog, r.connection, r.category, r.subcategory);
    AllowedDecides(Merge(d, o), r.connection, r.category, r.subcategory);
  }

  /** `c` with the defaults in the layer below, after a change of the overrides. */
  lemma ChangedChoices(d: Choices, o: Choices, command: Command, setting: Setting,
                       connection: string, category: string, subcategory: string)
    ensures var c := WithChange(o, command, ValueOf(setting), connection, category, subcategory);
            var scoped := InScope(command, connection, category, subcategory);
            var was, now := Decide(Layer(d, o)), Decide(Layer(d, c));
            && (!scoped ==> now == was)
            && (scoped && setting == TurnOn && was ==> now)
            && (scoped && setting == TurnOff && !(command.Source? && |command.parts| == 1) ==> !now)
            && (scoped && setting == TurnOff && now ==> Layer(d, o).childSwitch == Some(Bool(true)))
  {
  }

  /**
   * A change alters no decision outside its scope. Inside, turning on removes no route;
   * turning off removes them all, except that a subcategory's own switch for a source
   * outranks its category's.
   */
  lemma ChangeIsScoped(d: Fields, o: Fields, catalog: Catalog, command: Command, setting: Setting, r: Route)
    requires Valid(d, catalog) && Valid(o, catalog) && Known(command, catalog) && Accepted(command, setting)
    ensures var scoped := InScope(command, r.connection, r.category, r.subcategory);
            var was, now := Planned(d, o, r), Planned(d, Change(o, command, setting), r);
            && (!scoped ==> now == was)
            && (scoped && setting == TurnOn && was ==> now)
            && (scoped && setting == TurnOff && !(command.Source? && |command.parts| == 1) ==> !now)
            && (scoped && setting == TurnOff && now ==>
                  ChoicesOf(Merge(d, o), r.connection, r.category, r.subcategory).childSwitch == Some(Bool(true)))
  {
    ChangeKeepsValid(o, command, setting, catalog);
    ChangeSetsOneChoice(o, command, setting, catalog, r.connection, r.category, r.subcategory);
    PlannedDecides(d, o, catalog, r);
    PlannedDecides(d, Change(o, command, setting), catalog, r);
    MergeLayersChoices(d, o, catalog, r.connection, r.category, r.subcategory);
    ChangedChoices(ChoicesOf(d, r.connection, r.category, r.subcategory),
                   ChoicesOf(o, r.connection, r.category, r.subcategory),
                   command, setting, r.connection, r.category, r.subcategory);
  }

  /** The key of five that a command sets. */
  function KeyIn(c: Choices, command: Command): Option<Json>
  {
    match command
    case Connection(_) => c.gate
    case Personal => None
    case Category(parts) => if |parts| == 1 then c.parentEnable else c.childEnable
    case Source(_, parts) => if |parts| == 1 then c.parentSwitch else c.childSwitch
  }

  predicate IsOn(value: Option<Json>, default: bool) { if value.None? then default else value == Some(Bool(true)) }

  predicate IsSet(value: Option<Json>) { value.Some? && value != Some(Null) }

  /** The nearest switch that is set; on when none is. */
  predicate SwitchedOn(parent: Option<Json>, child: Option<Json>)
  {
    if IsSet(child) then child == Some(Bool(true)) else IsSet(parent) ==> parent == Some(Bool(true))
  }

  /** Nothing but the command's own key stands in the route's way, and that key is not outranked. */
  predicate Matters(c: Choices, command: Command)
  {
    var gate, parent, child := IsOn(c.gate, false), IsOn(c.parentEnable, true), IsOn(c.childEnable, true);
    var switched := SwitchedOn(c.parentSwitch, c.childSwitch);
    match command
    case Connection(_) => parent && child && switched
    case Personal => false
    case Category(parts) => gate && (if |parts| == 1 then child else parent) && switched
    case Source(_, parts) => gate && parent && child && (|parts| == 1 ==> !IsSet(c.childSwitch))
  }

  /** Whether the command's own key lets the route through with this value. */
  predicate LetsThrough(c: Choices, command: Command, value: Option<Json>)
  {
    match command
    case Connection(_) => IsOn(value, false)
    case Personal => true
    case Category(_) => IsOn(value, true)
    case Source(_, parts) => if |parts| == 1 then SwitchedOn(value, None) else SwitchedOn(c.parentSwitch, value)
  }

  lemma DecideParts(c: Choices)
    ensures Decide(c) <==>
            && IsOn(c.gate, false) && IsOn(c.parentEnable, true) && IsOn(c.childEnable, true)
            && SwitchedOn(c.parentSwitch, c.childSwitch)
  {
  }

  /** The layered choices with the command's key replaced. */
  function WithKey(c: Choices, command: Command, value: Option<Json>): Choices
  {
    match command
    case Connection(_) => c.(gate := value)
    case Personal => c
    case Category(parts) => if |parts| == 1 then c.(parentEnable := value) else c.(childEnable := value)
    case Source(_, parts) => if |parts| == 1 then c.(parentSwitch := value) else c.(childSwitch := value)
  }

  /** Two values of the command's key decide differently exactly where it matters and they read differently. */
  lemma KeyDecides(c: Choices, command: Command, v: Option<Json>, w: Option<Json>)
    ensures Decide(WithKey(c, command, v)) != Decide(WithKey(c, command, w)) <==>
            Matters(c, command) && LetsThrough(c, command, v) != LetsThrough(c, command, w)
  {
    DecideParts(WithKey(c, command, v));
    DecideParts(WithKey(c, command, w));
  }

  lemma KeyStays(c: Choices, command: Command)
    ensures WithKey(c, command, KeyIn(c, command)) == c
  {
  }

  lemma LayeredChange(d: Choices, o: Choices, command: Command, value: Option<Json>,
                      connection: string, category: string, subcategory: string)
    requires InScope(command, connection, category, subcategory)
    ensures Layer(d, WithChange(o, command, value, connection, category, subcategory))
            == WithKey(Layer(d, o), command, OrElse(value, KeyIn(d, command)))
  {
  }

  lemma ChoicesChangeExactly(d: Choices, o: Choices, command: Command, value: Option<Json>,
                             connection: string, category: string, subcategory: string)
    ensures var c := Layer(d, o);
            Decide(Layer(d, WithChange(o, command, value, connection, category, subcategory))) != Decide(c)
            <==>
            && InScope(command, connection, category, subcategory) && Matters(c, command)
            && LetsThrough(c, command, KeyIn(c, command)) != LetsThrough(c, command, OrElse(value, KeyIn(d, command)))
  {
    if InScope(command, connection, category, subcategory) {
      var c := Layer(d, o);
      LayeredChange(d, o, command, value, connection, category, subcategory);
      KeyStays(c, command);
      KeyDecides(c, command, KeyIn(c, command), OrElse(value, KeyIn(d, command)));
    }
  }

  /**
   * A command changes the decision about a route exactly when the route is in its scope,
   * nothing else stands in the route's way, and the key it sets reads differently after it.
   */
  lemma ChangesExactly(d: Fields, o: Fields, catalog: Catalog, command: Command, setting: Setting, r: Route)
    requires Valid(d, catalog) && Valid(o, catalog) && Known(command, catalog) && Accepted(command, setting)
    ensures var before := ChoicesOf(Merge(d, o), r.connection, r.category, r.subcategory);
            var default := KeyIn(ChoicesOf(d, r.connection, r.category, r.subcategory), command);
            Planned(d, Change(o, command, setting), r) != Planned(d, o, r)
            <==>
            && InScope(command, r.connection, r.category, r.subcategory) && Matters(before, command)
            && LetsThrough(before, command, KeyIn(before, command))
               != LetsThrough(before, command, OrElse(ValueOf(setting), default))
  {
    ChangeKeepsValid(o, command, setting, catalog);
    ChangeSetsOneChoice(o, command, setting, catalog, r.connection, r.category, r.subcategory);
    PlannedDecides(d, o, catalog, r);
    PlannedDecides(d, Change(o, command, setting), catalog, r);
    MergeLayersChoices(d, o, catalog, r.connection, r.category, r.subcategory);
    ChoicesChangeExactly(ChoicesOf(d, r.connection, r.category, r.subcategory),
                         ChoicesOf(o, r.connection, r.category, r.subcategory),
                         command, ValueOf(setting), r.connection, r.category, r.subcategory);
  }

  /** The decision about a route of each command and setting, in the layered choices `c` before it. */
  predicate Decided(c: Choices, default: Option<Json>, command: Command, setting: Setting)
  {
    var gate, parent, child := IsOn(c.gate, false), IsOn(c.parentEnable, true), IsOn(c.childEnable, true);
    var switched := SwitchedOn(c.parentSwitch, c.childSwitch);
    match (command, setting)
    case (Connection(_), TurnOn) => parent && child && switched
    case (Connection(_), TurnOff) => false
    case (Category(parts), TurnOn) => gate && (if |parts| == 1 then child else parent) && switched
    case (Category(_), TurnOff) => false
    // The category's own switch counts only where the subcategory has none.
    case (Source(_, parts), TurnOn) =>
      gate && parent && child && (|parts| == 1 && IsSet(c.childSwitch) ==> c.childSwitch == Some(Bool(true)))
    case (Source(_, parts), TurnOff) =>
      gate && parent && child && |parts| == 1 && c.childSwitch == Some(Bool(true))
    // What is inherited is the category's switch, and nothing stands above that.
    case (Source(_, parts), Inherit) =>
      && gate && parent && child
      && if |parts| == 1 then IsSet(c.childSwitch) ==> c.childSwitch == Some(Bool(true))
         else IsSet(c.parentSwitch) ==> c.parentSwitch == Some(Bool(true))
    case _ => Decide(WithKey(c, command, default))
  }

  lemma DecidedKey(c: Choices, default: Option<Json>, command: Command, setting: Setting)
    requires Accepted(command, setting) && !command.Personal?
    ensures Decide(WithKey(c, command, OrElse(ValueOf(setting), default))) <==> Decided(c, default, command, setting)
  {
    DecideParts(WithKey(c, command, OrElse(ValueOf(setting), default)));
  }

  /**
   * What each command makes of a route in its scope: on and off as they say, `inherit` as
   * the next switch above says, `default` as without the override.
   */
  lemma CommandDecides(d: Fields, o: Fields, catalog: Catalog, command: Command, setting: Setting, r: Route)
    requires Valid(d, catalog) && Valid(o, catalog) && Known(command, catalog) && Accepted(command, setting)
    requires InScope(command, r.connection, r.category, r.subcategory)
    ensures var before := ChoicesOf(Merge(d, o), r.connection, r.category, r.subcategory);
            var default := KeyIn(ChoicesOf(d, r.connection, r.category, r.subcategory), command);
            Planned(d, Change(o, command, setting), r) <==> Decided(before, default, command, setting)
  {
    var cd := ChoicesOf(d, r.connection, r.category, r.subcategory);
    var co := ChoicesOf(o, r.connection, r.category, r.subcategory);
    ChangeKeepsValid(o, command, setting, catalog);
    ChangeSetsOneChoice(o, command, setting, catalog, r.connection, r.category, r.subcategory);
    PlannedDecides(d, Change(o, command, setting), catalog, r);
    MergeLayersChoices(d, o, catalog, r.connection, r.category, r.subcategory);
    LayeredChange(cd, co, command, ValueOf(setting), r.connection, r.category, r.subcategory);
    DecidedKey(Layer(cd, co), KeyIn(cd, command), command, setting);
  }

  /** `settings.get("personal", True)` */
  predicate PersonalAllowed(settings: Fields)
  {
    "personal" in settings ==> settings["personal"] == Bool(true)
  }

  lemma PersonalMerged(d: Fields, o: Fields, catalog: Catalog)
    requires Valid(d, catalog) && Valid(o, catalog)
    ensures PersonalAllowed(Merge(d, o)) <==> PersonalAllowed(if "personal" in o then o else d)
  {
  }

  lemma ChangeKeepsPersonal(o: Fields, command: Command, setting: Setting)
    requires !command.Personal?
    ensures Lookup(Change(o, command, setting), "personal") == Lookup(o, "personal") || PathOf(command) == []
  {
    if PathOf(command) != [] {
      EditStep(o, PathOf(command), KeyOf(command), ValueOf(setting), "personal");
    }
  }

  /** The command about one's own pictures sets just that, and no other command touches it. */
  lemma PersonalDecides(d: Fields, o: Fields, catalog: Catalog, command: Command, setting: Setting)
    requires Valid(d, catalog) && Valid(o, catalog) && Known(command, catalog) && Accepted(command, setting)
    ensures PersonalAllowed(Merge(d, Change(o, command, setting))) <==>
            if !command.Personal? then PersonalAllowed(Merge(d, o))
            else setting == TurnOn || (setting == Default && PersonalAllowed(d))
  {
    ChangeKeepsValid(o, command, setting, catalog);
    PersonalMerged(d, o, catalog);
    PersonalMerged(d, Change(o, command, setting), catalog);
    if !command.Personal? {
      ChangeKeepsPersonal(o, command, setting);
      assert Lookup(Change(o, command, setting), "personal") == Lookup(o, "personal");
    }
  }

  /** The category is switched off, the two layers taken together. */
  predicate SwitchedOff(d: Fields, o: Fields, category: string)
  {
    Lookup(Sub(Sub(Merge(d, o), "categories"), category), "enable") == Some(Bool(false))
  }

  /** Under a category that is switched off, a command about a subcategory changes no decision. */
  lemma SubcategoryOfSwitchedOff(d: Fields, o: Fields, catalog: Catalog, command: Command, setting: Setting, r: Route)
    requires Valid(d, catalog) && Valid(o, catalog) && Known(command, catalog) && Accepted(command, setting)
    requires (command.Category? || command.Source?) && |command.parts| == 2 && SwitchedOff(d, o, command.parts[0])
    ensures Planned(d, Change(o, command, setting), r) == Planned(d, o, r)
  {
    ChangesExactly(d, o, catalog, command, setting, r);
  }

  /** The key a command is about, as it is set now. */
  function At(fields: Fields, path: seq<string>, key: string): Option<Json>
    decreases |path|
  {
    if path == [] then Lookup(fields, key) else At(Sub(fields, path[0]), path[1..], key)
  }

  predicate Unset(o: Fields, command: Command)
  {
    At(o, PathOf(command), KeyOf(command)).None?
  }

  lemma UnsetChoice(o: Fields, command: Command, connection: string, category: string, subcategory: string)
    requires Unset(o, command)
    ensures var c := ChoicesOf(o, connection, category, subcategory);
            WithChange(c, command, None, connection, category, subcategory) == c
  {
    if InScope(command, connection, category, subcategory) && !command.Personal? {
      var path, key := PathOf(command), KeyOf(command);
      assert At(o, path, key) == At(Sub(o, path[0]), path[1..], key);
      if !command.Connection? {
        var parts, tail := command.parts, if command.Source? then ["connections"] else [];
        var parent := Sub(Sub(o, "categories"), category);
        assert path[1..][0] == category;
        assert At(o, path, key) == At(parent, path[1..][1..], key);
        if |parts| == 1 {
          assert path[1..][1..] == tail;
          NodeAt(parent, tail, key);
        } else {
          assert path[1..][1..] == ["subcategories", subcategory] + tail;
          LeafAt(parent, subcategory, tail, key);
        }
      }
    }
  }

  lemma NodeAt(node: Fields, tail: seq<string>, key: string)
    requires tail == [] || tail == ["connections"]
    ensures At(node, tail, key) == Lookup(if tail == [] then node else Sub(node, "connections"), key)
  {
    assert ["connections"][1..] == [];
  }

  lemma LeafAt(node: Fields, leaf: string, tail: seq<string>, key: string)
    requires tail == [] || tail == ["connections"]
    ensures var child := Sub(Sub(node, "subcategories"), leaf);
            At(node, ["subcategories", leaf] + tail, key)
              == Lookup(if tail == [] then child else Sub(child, "connections"), key)
  {
    var path := ["subcategories", leaf] + tail;
    assert path[1..] == [leaf] + tail && path[1..][1..] == tail;
    NodeAt(Sub(Sub(node, "subcategories"), leaf), tail, key);
  }

  lemma UndoChoices(o: Fields, catalog: Catalog, command: Command, setting: Setting,
                    connection: string, category: string, subcategory: string)
    requires Known(command, catalog) && Unset(o, command)
    ensures ChoicesOf(Change(Change(o, command, setting), command, Default), connection, category, subcategory)
            == ChoicesOf(o, connection, category, subcategory)
  {
    ChangeSetsOneChoice(o, command, setting, catalog, connection, category, subcategory);
    UnsetChoice(o, command, connection, category, subcategory);
    UndoStep(Change(o, command, setting), ChoicesOf(o, connection, category, subcategory), catalog, command,
             ValueOf(setting),
             connection, category, subcategory);
  }

  lemma UndoStep(o: Fields, c: Choices, catalog: Catalog, command: Command, value: Option<Json>,
                 connection: string, category: string, subcategory: string)
    requires Known(command, catalog)
    requires WithChange(c, command, None, connection, category, subcategory) == c
    requires ChoicesOf(o, connection, category, subcategory)
             == WithChange(c, command, value, connection, category, subcategory)
    ensures ChoicesOf(Change(o, command, Default), connection, category, subcategory) == c
  {
    ChangeSetsOneChoice(o, command, Default, catalog, connection, category, subcategory);
    LastChangeWins(c, command, value, connection, category, subcategory);
  }

  lemma LastChangeWins(c: Choices, command: Command, value: Option<Json>, connection: string, category: string,
      subcategory: string)
    ensures var changed := WithChange(c, command, value, connection, category, subcategory);
            WithChange(changed, command, None, connection, category, subcategory)
            == WithChange(c, command, None, connection, category, subcategory)
  {
  }

  /** Setting a key that was not set and then `default` restores every decision. */
  lemma DefaultUndoes(d: Fields, o: Fields, catalog: Catalog, command: Command, setting: Setting, r: Route)
    requires Valid(d, catalog) && Valid(o, catalog) && Known(command, catalog) && Accepted(command, setting)
    requires Unset(o, command)
    ensures Planned(d, Change(Change(o, command, setting), command, Default), r) == Planned(d, o, r)
  {
    ChangeKeepsValid(o, command, setting, catalog);
    ChangeKeepsValid(Change(o, command, setting), command, Default, catalog);
    UndoChoices(o, catalog, command, setting, r.connection, r.category, r.subcategory);
    SameChoicesSamePlan(d, o, Change(Change(o, command, setting), command, Default), catalog, r);
  }

  lemma SameChoicesSamePlan(d: Fields, a: Fields, b: Fields, catalog: Catalog, r: Route)
    requires Valid(d, catalog) && Valid(a, catalog) && Valid(b, catalog)
    requires ChoicesOf(a, r.connection, r.category, r.subcategory)
             == ChoicesOf(b, r.connection, r.category, r.subcategory)
    ensures Planned(d, a, r) == Planned(d, b, r)
  {
    PlannedDecides(d, a, catalog, r);
    PlannedDecides(d, b, catalog, r);
  }

  // ---- Sessions of changes ----

  datatype Request = Request(command: Command, setting: Setting)

  predicate Usable(request: Request, catalog: Catalog)
  {
    Known(request.command, catalog) && Accepted(request.command, request.setting)
  }

  /** Requests that are refused change nothing. */
  function Session(o: Fields, requests: seq<Request>, catalog: Catalog): Fields
    decreases |requests|
  {
    if requests == [] then o
    else
      var q := requests[0];
      Session(if Usable(q, catalog) then Change(o, q.command, q.setting) else o, requests[1..], catalog)
  }

  function SessionChoices(c: Choices, requests: seq<Request>, catalog: Catalog,
                          connection: string, category: string, subcategory: string): Choices
    decreases |requests|
  {
    if requests == [] then c
    else
      var q := requests[0];
      SessionChoices(
        if !Usable(q, catalog) then c
        else WithChange(c, q.command, ValueOf(q.setting), connection, category, subcategory),
        requests[1..], catalog, connection, category, subcategory)
  }

  /**
   * After any session of requests the overrides are valid and a route is planned as its
   * own five keys say: those of the start, each replaced by the last request about it.
   */
  lemma {:induction false} SessionPlans(d: Fields, o: Fields, requests: seq<Request>, catalog: Catalog, r: Route)
    requires Valid(d, catalog) && Valid(o, catalog)
    ensures var end := Session(o, requests, catalog);
            && Valid(end, catalog)
            && Planned(d, end, r)
               == Decide(Layer(ChoicesOf(d, r.connection, r.category, r.subcategory),
                               SessionChoices(ChoicesOf(o, r.connection, r.category, r.subcategory), requests, catalog,
                                              r.connection, r.category, r.subcategory)))
    decreases |requests|
  {
    if requests == [] {
      PlannedDecides(d, o, catalog, r);
    } else {
      var q := requests[0];
      if Usable(q, catalog) {
        ChangeKeepsValid(o, q.command, q.setting, catalog);
        ChangeSetsOneChoice(o, q.command, q.setting, catalog, r.connection, r.category, r.subcategory);
        SessionPlans(d, Change(o, q.command, q.setting), requests[1..], catalog, r);
      } else {
        SessionPlans(d, o, requests[1..], catalog, r);
      }
    }
  }

  // ---- The program ----

  /** The loop below, with `todo` still to be laid over `base`. */
  ghost predicate Merging(result: Fields, todo: set<string>, base: Fields, overrides: Fields)
  {
    && todo <= overrides.Keys && result.Keys == base.Keys + (overrides.Keys - todo)
    && forall k :: k in result ==>
         if k in todo then k in base && result[k] == base[k] else result[k] == Merge(base, overrides)[k]
  }

  lemma MergingStep(result: Fields, todo: set<string>, key: string, value: Json, base: Fields, overrides: Fields)
    requires Merging(result, todo, base, overrides) && key in todo
    requires value == MergedKey(Lookup(result, key), overrides[key])
    ensures Merging(result[key := value], todo - {key}, base, overrides)
  {
    var goal := Goal(base, overrides);
    assert Lookup(result, key) == Lookup(base, key);
  }

  lemma MergingDone(result: Fields, base: Fields, overrides: Fields)
    requires Merging(result, {}, base, overrides)
    ensures result == Merge(base, overrides)
  {
    var goal := Goal(base, overrides);
  }

  /** The loop of `_merge` over the overrides. */
  method MergeSettings(base: Fields, overrides: Fields) returns (result: Fields)
    ensures result == Merge(base, overrides)
    decreases Object(overrides), 1
  {
    result := base;
    var todo := overrides.Keys;
    MergingStart(base, overrides);
    while todo != {}
      invariant Merging(result, todo, base, overrides)
      decreases |todo|
    {
      var key :| key in todo;
      Inside(overrides, key);
      var value := MergeKey(Lookup(result, key), overrides[key], overrides);
      MergingStep(result, todo, key, value, base, overrides);
      result := result[key := value];
      todo := todo - {key};
    }
    MergingDone(result, base, overrides);
  }

  lemma MergingStart(base: Fields, overrides: Fields)
    ensures Merging(base, overrides.Keys, base, overrides)
  {
    var goal := Goal(base, overrides);
  }

  /** The body of the loop: the new value of a key of `overrides`. */
  method MergeKey(was: Option<Json>, override: Json, ghost overrides: Fields) returns (value: Json)
    requires override < Object(overrides)
    ensures value == MergedKey(was, override)
    decreases Object(overrides), 0
  {
    if override.Object? && was.Some? && was.value.Object? {
      assert Object(override.fields) == override;
      var inner := MergeSettings(was.value.fields, override.fields);
      return Object(inner);
    }
    return override;
  }

  function MergedKey(was: Option<Json>, override: Json): Json
  {
    if was.Some? && was.value.Object? && override.Object? then Object(Merge(was.value.fields, override.fields))
    else override
  }

  lemma Goal(base: Fields, overrides: Fields) returns (goal: Fields)
    ensures goal == Merge(base, overrides)
    ensures goal.Keys == base.Keys + overrides.Keys
    ensures forall k :: k in overrides ==> goal[k] == MergedKey(Lookup(base, k), overrides[k])
    ensures forall k :: k in base && k !in overrides ==> goal[k] == base[k]
  {
    goal := Merge(base, overrides);
  }

  /** The preferences file. */
  class Preferences {
    var stored: Fields

    constructor (stored: Fields)
      ensures this.stored == stored
    {
      this.stored := stored;
    }

    /** Edits one choice; nothing is written unless the file was valid and stays valid. */
    method Execute(request: Request, catalog: Catalog) returns (ok: bool)
      requires Accepted(request.command, request.setting)
      modifies this
      ensures ok == (Valid(old(stored), catalog) && Known(request.command, catalog))
      ensures stored == if ok then Change(old(stored), request.command, request.setting) else old(stored)
      ensures ok ==> Valid(stored, catalog)
    {
      if !Valid(stored, catalog) || !Known(request.command, catalog) {
        return false;
      }
      var overrides := Change(stored, request.command, request.setting);
      ChangeKeepsValid(stored, request.command, request.setting, catalog);
      if !Valid(overrides, catalog) {
        return false;
      }
      stored := overrides;
      return true;
    }
  }
}
