/** The walk of rendered configuration against the Pydantic models (scripts/check_helm_config_contract.py). */
module ConfigWalk {
  import opened Text

  /** A field annotation, as `get_origin` and `get_args` see it; models are named, so their graph may be cyclic. */
  datatype Annotation =
    | Scalar
    | NoneType
    | Model(name: string)
    | Collection(args: seq<Annotation>)        // list, set and tuple
    | OtherCollection(args: seq<Annotation>)   // frozenset, Sequence and the like
    | Mapping(args: seq<Annotation>)           // dict
    | TypingUnion(arms: seq<Annotation>)       // Optional[X], Union[X, Y]
    | PipeUnion(arms: seq<Annotation>)         // X | Y: its origin is types.UnionType up to Python 3.13

  datatype Sub = Sub(model: string, isList: bool)

  /** The fields of every model. */
  type Models = string -> map<string, Annotation>

  function NonNone(arms: seq<Annotation>): (r: seq<Annotation>)
    ensures forall a :: a in r ==> a in arms && !a.NoneType?
  {
    if arms == [] then []
    else (if arms[0].NoneType? then [] else [arms[0]]) + NonNone(arms[1..])
  }

  /** The one arm of an optional type. */
  function OnlyArm(arms: seq<Annotation>): (r: Option<Annotation>)
    ensures r.Some? ==> r.value in arms && !r.value.NoneType?
  {
    var rest := NonNone(arms);
    if |rest| == 1 then Some(rest[0]) else None
  }

  /** `_model_in`: the model to recurse into, and whether the field is a collection of it. */
  function ModelIn(a: Annotation): Option<Sub> {
    match a
    case TypingUnion(arms) => var arm := OnlyArm(arms); if arm.Some? then ModelIn(arm.value) else None
    case Collection(args) => if |args| > 0 && args[0].Model? then Some(Sub(args[0].name, true)) else None
    case Model(name) => Some(Sub(name, false))
    case _ => None
  }

  /** What an annotation says of the data below it: nothing, a model, or the same of each item or each value. */
  datatype Shape = Free | Of(model: string) | Each(items: Shape) | Values(values: Shape)

  function EachOf(s: Shape): Shape {
    if s == Free then Free else Each(s)
  }

  function ValuesOf(s: Shape): Shape {
    if s == Free then Free else Values(s)
  }

  /**
   * The declared shape: models at any depth, inside collections, as the values of dicts, and optional in either
   * spelling. A choice between several types other than None says nothing of the keys.
   */
  function ShapeOf(a: Annotation): Shape {
    match a
    case Scalar => Free
    case NoneType => Free
    case Model(name) => Of(name)
    case Collection(args) => if |args| > 0 then EachOf(ShapeOf(args[0])) else Free
    case OtherCollection(args) => if |args| > 0 then EachOf(ShapeOf(args[0])) else Free
    case Mapping(args) => if |args| > 1 then ValuesOf(ShapeOf(args[1])) else Free
    case TypingUnion(arms) => var arm := OnlyArm(arms); if arm.Some? then ShapeOf(arm.value) else Free
    case PipeUnion(arms) => var arm := OnlyArm(arms); if arm.Some? then ShapeOf(arm.value) else Free
  }

  /** The shape that `_walk` acts on. */
  function SeenShape(a: Annotation): Shape {
    var sub := ModelIn(a);
    if sub.None? then Free else if sub.value.isList then Each(Of(sub.value.model)) else Of(sub.value.model)
  }

  /** What YAML parses to; a dict's entries are in order. */
  datatype Data = Leaf(text: string) | List(items: seq<Data>) | Dict(entries: seq<(string, Data)>)

  // ── The walk ────────────────────────────────────────────────────────────────

  function Walk(models: Models, d: Data, m: string, path: string): seq<string>
    decreases d, 1, 0
  {
    if d.Dict? then WalkEntries(models, d, |d.entries|, m, path) else []
  }

  function WalkEntries(models: Models, d: Data, n: nat, m: string, path: string): seq<string>
    requires d.Dict? && n <= |d.entries|
    decreases d, 0, n
  {
    if n == 0 then [] else
    var (key, val) := d.entries[n - 1];
    WalkEntries(models, d, n - 1, m, path)
    + if key !in models(m) then [path + key] else
      match ModelIn(models(m)[key])
      case None => []
      case Some(Sub(sub, isList)) =>
        if val.Dict? then Walk(models, val, sub, path + key + ".")
        else if isList && val.List? then WalkItems(models, val, |val.items|, sub, path + key + "[].")
        else []
  }

  function WalkItems(models: Models, v: Data, n: nat, m: string, path: string): seq<string>
    requires v.List? && n <= |v.items|
    decreases v, 0, n
  {
    if n == 0 then []
    else WalkItems(models, v, n - 1, m, path) + Walk(models, v.items[n - 1], m, path)
  }

  /** `_walk` terminates on the size of the data, however the models refer to each other. */
  method WalkData(models: Models, d: Data, m: string, path: string) returns (errs: seq<string>)
    ensures errs == Walk(models, d, m, path)
    decreases d
  {
    errs := [];
    if !d.Dict? { return; }
    var fields := models(m);
    var i := 0;
    while i < |d.entries|
      invariant 0 <= i <= |d.entries|
      invariant errs == WalkEntries(models, d, i, m, path)
    {
      var (key, val) := d.entries[i];
      if key !in fields {
        errs := errs + [path + key];
      } else {
        var sub := ModelIn(fields[key]);
        if sub.Some? && val.Dict? {
          var more := WalkData(models, val, sub.value.model, path + key + ".");
          errs := errs + more;
        } else if sub.Some? && sub.value.isList && val.List? {
          ghost var before := errs;
          var j := 0;
          while j < |val.items|
            invariant 0 <= j <= |val.items|
            invariant errs == before + WalkItems(models, val, j, sub.value.model, path + key + "[].")
          {
            var more := WalkData(models, val.items[j], sub.value.model, path + key + "[].");
            errs := errs + more;
            j := j + 1;
          }
        }
      }
      i := i + 1;
    }
  }

  // ── Data that conforms to the declared models ───────────────────────────────

  /**
   * Every key of the data is a real field of the model declared at its place. Data of another kind than declared has no
   * such keys; a dict in the place of a collection counts as one item, as it does for the walk.
   */
  predicate Conforms(models: Models, s: Shape, d: Data)
    decreases d, s
  {
    match s
    case Free => true
    case Of(m) =>
      d.Dict? ==> forall i :: 0 <= i < |d.entries| ==>
                    && d.entries[i].0 in models(m)
                    && Conforms(models, ShapeOf(models(m)[d.entries[i].0]), d.entries[i].1)
    case Each(item) =>
      if d.List? then forall i :: 0 <= i < |d.items| ==> Conforms(models, item, d.items[i])
      else d.Dict? ==> Conforms(models, item, d)
    case Values(value) => d.Dict? ==> forall i :: 0 <= i < |d.entries| ==> Conforms(models, value, d.entries[i].1)
  }

  // ── What drift is ───────────────────────────────────────────────────────────

  /** One step into the data: an entry of a dict, or an item of the list at that entry. */
  datatype Step = Entry(index: nat) | Item(index: nat, item: nat)

  /** The model and data one step on, when the entry's key is a field that reads as a model. */
  function Follow(models: Models, d: Data, m: string, s: Step): Option<(Data, string)> {
    if !d.Dict? || s.index >= |d.entries| then None else
    var (key, val) := d.entries[s.index];
    if key !in models(m) || ModelIn(models(m)[key]).None? then None else
    var sub := ModelIn(models(m)[key]).value;
    match s
    case Entry(_) => if val.Dict? then Some((val, sub.model)) else None
    case Item(_, j) => if sub.isList && val.List? && j < |val.items| then Some((val.items[j], sub.model)) else None
  }

  function FollowAll(models: Models, d: Data, m: string, route: seq<Step>): Option<(Data, string)>
    decreases |route|
  {
    if route == [] then Some((d, m)) else
    var next := Follow(models, d, m, route[0]);
    if next.None? then None else FollowAll(models, next.value.0, next.value.1, route[1..])
  }

  /** The dotted path of a route. */
  function Dotted(models: Models, d: Data, m: string, route: seq<Step>): string
    requires FollowAll(models, d, m, route).Some?
    decreases |route|
  {
    if route == [] then "" else
    var next := Follow(models, d, m, route[0]).value;
    d.entries[route[0].index].0 + (if route[0].Entry? then "." else "[].")
    + Dotted(models, next.0, next.1, route[1..])
  }

  /** The route leads to a dict whose i-th key is no field of the model there. */
  predicate Drifts(models: Models, d: Data, m: string, route: seq<Step>, i: nat) {
    var end := FollowAll(models, d, m, route);
    && end.Some? && end.value.0.Dict? && i < |end.value.0.entries|
    && end.value.0.entries[i].0 !in models(end.value.1)
  }

  function DriftPath(models: Models, d: Data, m: string, route: seq<Step>, i: nat): string
    requires Drifts(models, d, m, route, i)
  {
    Dotted(models, d, m, route) + FollowAll(models, d, m, route).value.0.entries[i].0
  }

  predicate IsDrift(models: Models, d: Data, m: string, path: string, e: string, route: seq<Step>, i: nat) {
    Drifts(models, d, m, route, i) && e == path + DriftPath(models, d, m, route, i)
  }

  /** What the entry at index i adds to the walk. */
  function EntryErrs(models: Models, d: Data, i: nat, m: string, path: string): seq<string>
    requires d.Dict? && i < |d.entries|
  {
    var (key, val) := d.entries[i];
    if key !in models(m) then [path + key] else
    match ModelIn(models(m)[key])
    case None => []
    case Some(Sub(sub, isList)) =>
      if val.Dict? then Walk(models, val, sub, path + key + ".")
      else if isList && val.List? then WalkItems(models, val, |val.items|, sub, path + key + "[].")
      else []
  }

  lemma OneMoreEntry(models: Models, d: Data, n: nat, m: string, path: string)
    requires d.Dict? && 0 < n <= |d.entries|
    ensures WalkEntries(models, d, n, m, path)
            == WalkEntries(models, d, n - 1, m, path) + EntryErrs(models, d, n - 1, m, path)
  {
  }

  lemma {:induction false} EntriesAre(models: Models, d: Data, n: nat, m: string, path: string, e: string)
    requires d.Dict? && n <= |d.entries|
    ensures e in WalkEntries(models, d, n, m, path)
            <==> exists i :: 0 <= i < n && e in EntryErrs(models, d, i, m, path)
  {
    if n > 0 {
      EntriesAre(models, d, n - 1, m, path, e);
      OneMoreEntry(models, d, n, m, path);
    }
  }

  lemma {:induction false} ItemsAre(models: Models, v: Data, n: nat, m: string, path: string, e: string)
    requires v.List? && n <= |v.items|
    ensures e in WalkItems(models, v, n, m, path)
            <==> exists j :: 0 <= j < n && e in Walk(models, v.items[j], m, path)
  {
    if n > 0 { ItemsAre(models, v, n - 1, m, path, e); }
  }

  /** One step on: a drift of the rest of the walk is a drift of the walk. */
  lemma Prepend(models: Models, d: Data, m: string, path: string, e: string, s: Step, route: seq<Step>, i: nat)
    requires Follow(models, d, m, s).Some?
    requires var next := Follow(models, d, m, s).value;
             var path' := path + d.entries[s.index].0 + (if s.Entry? then "." else "[].");
             IsDrift(models, next.0, next.1, path', e, route, i)
    ensures IsDrift(models, d, m, path, e, [s] + route, i)
  {
  }

  /** Soundness: every reported path is that of a key that is no field of the model reached there. */
  lemma {:induction false} WalkIsSound(models: Models, d: Data, m: string, path: string, e: string)
    returns (route: seq<Step>, i: nat)
    requires e in Walk(models, d, m, path)
    ensures IsDrift(models, d, m, path, e, route, i)
    decreases d
  {
    EntriesAre(models, d, |d.entries|, m, path, e);
    i :| 0 <= i < |d.entries| && e in EntryErrs(models, d, i, m, path);
    var (key, val) := d.entries[i];
    if key !in models(m) {
      route := [];
    } else {
      var sub := ModelIn(models(m)[key]).value;
      var at := i;
      if val.Dict? {
        route, i := WalkIsSound(models, val, sub.model, path + key + ".", e);
        Prepend(models, d, m, path, e, Entry(at), route, i);
        route := [Entry(at)] + route;
      } else {
        ItemsAre(models, val, |val.items|, sub.model, path + key + "[].", e);
        var j :| 0 <= j < |val.items| && e in Walk(models, val.items[j], sub.model, path + key + "[].");
        route, i := WalkIsSound(models, val.items[j], sub.model, path + key + "[].", e);
        Prepend(models, d, m, path, e, Item(at, j), route, i);
        route := [Item(at, j)] + route;
      }
    }
  }

  /** One step on: what the rest of the walk reports, the walk reports. */
  lemma StepIsWalked(models: Models, d: Data, m: string, path: string, s: Step, e: string)
    requires Follow(models, d, m, s).Some?
    requires var next := Follow(models, d, m, s).value;
             e in Walk(models, next.0, next.1, path + d.entries[s.index].0 + (if s.Entry? then "." else "[]."))
    ensures e in Walk(models, d, m, path)
  {
    EntriesAre(models, d, |d.entries|, m, path, e);
    var key, val := d.entries[s.index].0, d.entries[s.index].1;
    if s.Item? { ItemsAre(models, val, |val.items|, ModelIn(models(m)[key]).value.model, path + key + "[].", e); }
    assert e in EntryErrs(models, d, s.index, m, path);
  }

  lemma DriftBelow(models: Models, d: Data, m: string, route: seq<Step>, i: nat)
    requires Drifts(models, d, m, route, i) && route != []
    ensures Follow(models, d, m, route[0]).Some?
    ensures var next := Follow(models, d, m, route[0]).value;
            && Drifts(models, next.0, next.1, route[1..], i)
            && DriftPath(models, d, m, route, i)
               == d.entries[route[0].index].0 + (if route[0].Entry? then "." else "[].")
                  + DriftPath(models, next.0, next.1, route[1..], i)
  {
    var next := Follow(models, d, m, route[0]).value;
    assert FollowAll(models, d, m, route) == FollowAll(models, next.0, next.1, route[1..]);
    var here := d.entries[route[0].index].0 + (if route[0].Entry? then "." else "[].");
    assert Dotted(models, d, m, route) == here + Dotted(models, next.0, next.1, route[1..]);
  }

  /** Completeness: every such key is reported, under its dotted path. */
  lemma {:induction false} WalkIsComplete(models: Models, d: Data, m: string, path: string, e: string,
                                          route: seq<Step>, i: nat)
    requires IsDrift(models, d, m, path, e, route, i)
    ensures e in Walk(models, d, m, path)
    decreases |route|
  {
    if route == [] {
      assert "" + d.entries[i].0 == d.entries[i].0;
      EntriesAre(models, d, |d.entries|, m, path, e);
      assert e in EntryErrs(models, d, i, m, path);
    } else {
      var next := Follow(models, d, m, route[0]).value;
      var key, sep := d.entries[route[0].index].0, if route[0].Entry? then "." else "[].";
      var path' := path + key + sep;
      DriftBelow(models, d, m, route, i);
      assert path + (key + sep + DriftPath(models, next.0, next.1, route[1..], i))
          == path' + DriftPath(models, next.0, next.1, route[1..], i);
      WalkIsComplete(models, next.0, next.1, path', e, route[1..], i);
      StepIsWalked(models, d, m, path, route[0], e);
    }
  }

  /** No route leads to a key that is no field of the model reached. */
  ghost predicate DriftFree(models: Models, d: Data, m: string) {
    forall route: seq<Step>, i: nat :: !Drifts(models, d, m, route, i)
  }

  lemma EmptyExactlyWhenDriftFree(models: Models, d: Data, m: string, path: string)
    ensures Walk(models, d, m, path) == [] <==> DriftFree(models, d, m)
  {
    if Walk(models, d, m, path) != [] {
      var route, i := WalkIsSound(models, d, m, path, Walk(models, d, m, path)[0]);
    }
    if !DriftFree(models, d, m) {
      var route: seq<Step>, i: nat :| Drifts(models, d, m, route, i);
      WalkIsComplete(models, d, m, path, path + DriftPath(models, d, m, route, i), route, i);
    }
  }

  // ── Models the walk does not see ────────────────────────────────────────────

  /** An optional type is one with a single arm that is not None. */
  lemma {:induction false} OnlyArmExactly(arms: seq<Annotation>)
    ensures OnlyArm(arms).Some? <==>
              exists i :: 0 <= i < |arms| && !arms[i].NoneType? && OnlyArm(arms) == Some(arms[i])
                          && forall j :: 0 <= j < |arms| && j != i ==> arms[j].NoneType?
  {
    if i :| 0 <= i < |arms| && !arms[i].NoneType? && forall j :: 0 <= j < |arms| && j != i ==> arms[j].NoneType? {
      OneLeft(arms, i);
    }
    if OnlyArm(arms).Some? {
      var i := LeftFrom(arms);
    }
  }

  lemma {:induction false} NoneLeft(arms: seq<Annotation>)
    requires forall j :: 0 <= j < |arms| ==> arms[j].NoneType?
    ensures NonNone(arms) == []
  {
    if arms != [] { NoneLeft(arms[1..]); }
  }

  lemma {:induction false} OneLeft(arms: seq<Annotation>, i: nat)
    requires i < |arms| && !arms[i].NoneType? && forall j :: 0 <= j < |arms| && j != i ==> arms[j].NoneType?
    ensures NonNone(arms) == [arms[i]]
  {
    if i > 0 { OneLeft(arms[1..], i - 1); } else { NoneLeft(arms[1..]); }
  }

  lemma {:induction false} LeftFrom(arms: seq<Annotation>) returns (i: nat)
    requires |NonNone(arms)| == 1
    ensures i < |arms| && !arms[i].NoneType? && NonNone(arms) == [arms[i]]
    ensures forall j :: 0 <= j < |arms| && j != i ==> arms[j].NoneType?
  {
    if arms[0].NoneType? {
      i := LeftFrom(arms[1..]);
      i := i + 1;
      assert forall j :: 0 < j < |arms| ==> arms[j] == arms[1..][j - 1];
    } else {
      i := 0;
      forall j | 0 < j < |arms| ensures arms[j].NoneType? {
        if !arms[j].NoneType? { StaysLeft(arms[1..], j - 1); }
      }
    }
  }

  lemma {:induction false} StaysLeft(arms: seq<Annotation>, j: nat)
    requires j < |arms| && !arms[j].NoneType?
    ensures NonNone(arms) != []
  {
    if j > 0 { StaysLeft(arms[1..], j - 1); }
  }

  /** What `_model_in` looks into: models, lists, sets and tuples of models, and what is optional of these. */
  lemma LookedInto(name: string, rest: seq<Annotation>, a: Annotation)
    ensures ModelIn(Model(name)) == Some(Sub(name, false))
    ensures ModelIn(Collection([Model(name)] + rest)) == Some(Sub(name, true))
    ensures !a.NoneType? ==> ModelIn(TypingUnion([a, NoneType])) == ModelIn(a)
    ensures !a.NoneType? ==> ModelIn(TypingUnion([NoneType, a])) == ModelIn(a)
    ensures a.Collection? && (a.args == [] || !a.args[0].Model?) ==> ModelIn(a).None?
    ensures a.TypingUnion? && OnlyArm(a.arms).None? ==> ModelIn(a).None?
    ensures a.Scalar? || a.NoneType? || a.OtherCollection? || a.Mapping? || a.PipeUnion? ==> ModelIn(a).None?
  {
    if !a.NoneType? { OptionalLookedInto(a); }
  }

  lemma OptionalLookedInto(a: Annotation)
    requires !a.NoneType?
    ensures ModelIn(TypingUnion([a, NoneType])) == ModelIn(a)
    ensures ModelIn(TypingUnion([NoneType, a])) == ModelIn(a)
  {
    OnlyThatArm(a);
  }

  lemma OnlyThatArm(a: Annotation)
    requires !a.NoneType?
    ensures OnlyArm([a, NoneType]) == OnlyArm([NoneType, a]) == Some(a)
  {
    OneLeft([a, NoneType], 0);
    OneLeft([NoneType, a], 1);
  }

  /** A key that is no field is reported under its path, below whatever is looked into. */
  lemma UnknownKeyReported(models: Models, root: string, f: string, name: string, isList: bool, key: string, val: Data,
                           path: string)
    requires f in models(root) && ModelIn(models(root)[f]) == Some(Sub(name, isList)) && key !in models(name)
    ensures var inner := Dict([(key, val)]);
            && Walk(models, Dict([(f, inner)]), root, path) == [path + f + "." + key]
            && (isList ==> Walk(models, Dict([(f, List([inner]))]), root, path) == [path + f + "[]." + key])
  {
    var inner := Dict([(key, val)]);
    UnknownKey(models, name, key, val, path + f + ".");
    UnknownKey(models, name, key, val, path + f + "[].");
    OneEntry(models, f, inner, root, path);
    OneEntry(models, f, List([inner]), root, path);
  }

  lemma UnknownKey(models: Models, m: string, key: string, val: Data, path: string)
    requires key !in models(m)
    ensures Walk(models, Dict([(key, val)]), m, path) == [path + key]
    ensures WalkItems(models, List([Dict([(key, val)])]), 1, m, path) == [path + key]
  {
    var d := Dict([(key, val)]);
    assert WalkEntries(models, d, 0, m, path) == [];
    assert WalkItems(models, List([d]), 0, m, path) == [];
  }

  /** Where `_model_in` finds a model it finds all that is declared there. */
  lemma {:induction false} NeverMisreads(a: Annotation)
    requires ModelIn(a).Some?
    ensures ShapeOf(a) == SeenShape(a)
  {
    if a.TypingUnion? {
      NeverMisreads(OnlyArm(a.arms).value);
    }
  }

  /** The model that the walk reaches from the root through these fields. */
  function ModelAt(models: Models, root: string, names: seq<string>): Option<string>
    decreases |names|
  {
    if names == [] then Some(root)
    else if names[0] !in models(root) || ModelIn(models(root)[names[0]]).None? then None
    else ModelAt(models, ModelIn(models(root)[names[0]]).value.model, names[1..])
  }

  /** The field f of the model reached declares models that the walk does not see. */
  predicate Blind(models: Models, root: string, names: seq<string>, f: string) {
    var m := ModelAt(models, root, names);
    m.Some? && f in models(m.value) && SeenShape(models(m.value)[f]) != ShapeOf(models(m.value)[f])
  }

  ghost predicate SeesAll(models: Models, root: string) {
    forall names: seq<string>, f: string :: !Blind(models, root, names, f)
  }

  lemma SeesAllBelow(models: Models, root: string, f: string)
    requires SeesAll(models, root) && f in models(root)
    ensures SeenShape(models(root)[f]) == ShapeOf(models(root)[f])
    ensures ModelIn(models(root)[f]).Some? ==> SeesAll(models, ModelIn(models(root)[f]).value.model)
  {
    assert !Blind(models, root, [], f);
    if ModelIn(models(root)[f]).Some? {
      var sub := ModelIn(models(root)[f]).value.model;
      forall names: seq<string>, g: string ensures !Blind(models, sub, names, g) {
        assert ([f] + names)[1..] == names;
        assert !Blind(models, root, [f] + names, g);
      }
    }
  }

  /** The walk decides conformance to the declared models wherever it sees all of them. */
  lemma {:induction false} WalkDecides(models: Models, d: Data, m: string, path: string)
    requires SeesAll(models, m)
    ensures Walk(models, d, m, path) == [] <==> Conforms(models, Of(m), d)
    decreases d, 1, 0
  {
    if d.Dict? {
      NoEntryErrs(models, d, |d.entries|, m, path);
      forall i | 0 <= i < |d.entries|
        ensures EntryErrs(models, d, i, m, path) == [] <==> EntryConforms(models, d, i, m)
      {
        EntryDecides(models, d, i, m, path);
      }
      ConformsByEntries(models, d, m);
    }
  }

  lemma ConformsByEntries(models: Models, d: Data, m: string)
    requires d.Dict?
    ensures Conforms(models, Of(m), d) <==> forall i :: 0 <= i < |d.entries| ==> EntryConforms(models, d, i, m)
  {
    if forall i :: 0 <= i < |d.entries| ==> EntryConforms(models, d, i, m) {
      forall i | 0 <= i < |d.entries|
        ensures d.entries[i].0 in models(m)
        ensures Conforms(models, ShapeOf(models(m)[d.entries[i].0]), d.entries[i].1)
      {
        assert EntryConforms(models, d, i, m);
      }
    }
  }

  predicate EntryConforms(models: Models, d: Data, i: nat, m: string)
    requires d.Dict? && i < |d.entries|
  {
    d.entries[i].0 in models(m) && Conforms(models, ShapeOf(models(m)[d.entries[i].0]), d.entries[i].1)
  }

  lemma {:induction false} NoEntryErrs(models: Models, d: Data, n: nat, m: string, path: string)
    requires d.Dict? && n <= |d.entries|
    ensures WalkEntries(models, d, n, m, path) == []
            <==> forall i :: 0 <= i < n ==> EntryErrs(models, d, i, m, path) == []
  {
    if n > 0 {
      NoEntryErrs(models, d, n - 1, m, path);
      OneMoreEntry(models, d, n, m, path);
    }
  }

  lemma {:induction false} EntryDecides(models: Models, d: Data, i: nat, m: string, path: string)
    requires d.Dict? && i < |d.entries| && SeesAll(models, m)
    ensures EntryErrs(models, d, i, m, path) == [] <==> EntryConforms(models, d, i, m)
    decreases d, 0, i
  {
    var (key, val) := d.entries[i];
    if key in models(m) {
      SeesAllBelow(models, m, key);
      var sub := ModelIn(models(m)[key]);
      if sub.Some? && val.Dict? {
        WalkDecides(models, val, sub.value.model, path + key + ".");
      } else if sub.Some? && val.List? {
        ItemsDecide(models, val, |val.items|, sub.value.model, path + key + "[].");
      }
    }
  }

  lemma {:induction false} ItemsDecide(models: Models, v: Data, n: nat, m: string, path: string)
    requires v.List? && n <= |v.items| && SeesAll(models, m)
    ensures WalkItems(models, v, n, m, path) == [] <==> forall j :: 0 <= j < n ==> Conforms(models, Of(m), v.items[j])
    decreases v, 0, n
  {
    if n > 0 {
      ItemsDecide(models, v, n - 1, m, path);
      WalkDecides(models, v.items[n - 1], m, path);
    }
  }

  lemma {:induction false} LengthBound(keys: set<string>) returns (n: nat)
    ensures forall k :: k in keys ==> |k| <= n
  {
    if keys == {} {
      n := 0;
    } else {
      var k :| k in keys;
      n := LengthBound(keys - {k});
      n := if n < |k| then |k| else n;
    }
  }

  lemma FreshKey(keys: set<string>) returns (k: string)
    ensures k !in keys
  {
    var n := LengthBound(keys);
    k := seq(n + 1, i => 'x');
    assert |k| == n + 1;
  }

  /** Every shape that says something is failed by some data. */
  lemma {:induction false} FailingData(models: Models, s: Shape) returns (d: Data)
    requires s != Free && Tight(s)
    ensures !Conforms(models, s, d) && !d.Leaf?
  {
    match s {
      case Of(m) =>
        var k := FreshKey(models(m).Keys);
        d := Dict([(k, Leaf(""))]);
        assert d.entries[0].0 == k;
      case Each(item) =>
        var bad := FailingData(models, item);
        d := List([bad]);
        assert d.items[0] == bad;
      case Values(value) =>
        var bad := FailingData(models, value);
        d := Dict([("k", bad)]);
        assert d.entries[0].1 == bad;
    }
  }

  /** No part of the shape says nothing. */
  predicate Tight(s: Shape) {
    match s
    case Free => false
    case Of(_) => true
    case Each(item) => Tight(item)
    case Values(value) => Tight(value)
  }

  lemma {:induction false} ShapesAreTight(a: Annotation)
    ensures ShapeOf(a) == Free || Tight(ShapeOf(a))
  {
    match a {
      case Collection(args) => if |args| > 0 { ShapesAreTight(args[0]); }
      case OtherCollection(args) => if |args| > 0 { ShapesAreTight(args[0]); }
      case Mapping(args) => if |args| > 1 { ShapesAreTight(args[1]); }
      case TypingUnion(arms) => if OnlyArm(arms).Some? { ShapesAreTight(OnlyArm(arms).value); }
      case PipeUnion(arms) => if OnlyArm(arms).Some? { ShapesAreTight(OnlyArm(arms).value); }
      case _ =>
    }
  }

  lemma OneEntry(models: Models, key: string, val: Data, m: string, path: string)
    requires key in models(m)
    ensures var d := Dict([(key, val)]);
            && Walk(models, d, m, path) == EntryErrs(models, d, 0, m, path)
            && (Conforms(models, Of(m), d) <==> Conforms(models, ShapeOf(models(m)[key]), val))
  {
    var d := Dict([(key, val)]);
    assert WalkEntries(models, d, 0, m, path) == [];
    assert d.entries[0] == (key, val);
  }

  /** Below a field the walk is blind to, data that does not conform goes unreported. */
  lemma {:induction false} BlindData(models: Models, root: string, names: seq<string>, f: string, path: string)
    returns (d: Data)
    requires Blind(models, root, names, f)
    ensures d.Dict? && Walk(models, d, root, path) == [] && !Conforms(models, Of(root), d)
    decreases |names|
  {
    if names == [] {
      var a := models(root)[f];
      if ModelIn(a).Some? { NeverMisreads(a); }
      ShapesAreTight(a);
      var inner := FailingData(models, ShapeOf(a));
      d := Dict([(f, inner)]);
      OneEntry(models, f, inner, root, path);
    } else {
      var a := models(root)[names[0]];
      NeverMisreads(a);
      var inner := BlindData(models, ModelIn(a).value.model, names[1..], f, path + names[0] + ".");
      d := Dict([(names[0], inner)]);
      OneEntry(models, names[0], inner, root, path);
    }
  }

  /**
   * The walk reports nothing exactly for the data whose keys are all real fields of the declared models, if and only if
   * no field reachable from the root declares a model where the walk does not look.
   */
  lemma NoDriftMeansConformingExactly(models: Models, root: string)
    ensures (forall d :: Walk(models, d, root, "") == [] <==> Conforms(models, Of(root), d)) <==> SeesAll(models, root)
  {
    if SeesAll(models, root) {
      forall d ensures Walk(models, d, root, "") == [] <==> Conforms(models, Of(root), d) {
        WalkDecides(models, d, root, "");
      }
    } else {
      var names: seq<string>, f: string :| Blind(models, root, names, f);
      var d := BlindData(models, root, names, f, "");
    }
  }

  lemma OptionalArm(a: Annotation)
    requires !a.NoneType?
    ensures OnlyArm([a, NoneType]) == Some(a)
  {
    var arms := [a, NoneType];
    assert NonNone(arms[1..]) == [] by { assert arms[1..][0] == NoneType && arms[1..][1..] == []; }
  }

  /** `proxy: RunnerProxyConfig | None` on RunnerConfig is such a field. */
  lemma RunnerProxyIsBlind(models: Models)
    requires "proxy" in models("RunnerConfig")
    requires models("RunnerConfig")["proxy"] == PipeUnion([Model("RunnerProxyConfig"), NoneType])
    ensures Blind(models, "RunnerConfig", [], "proxy") && !SeesAll(models, "RunnerConfig")
  {
    OptionalArm(Model("RunnerProxyConfig"));
    assert Blind(models, "RunnerConfig", [], "proxy");
  }

  /** So is any field that declares a model as the value of a dict, in a nested list, or optional inside a list. */
  lemma DeeperModelsAreBlind(models: Models, root: string, f: string, name: string)
    requires f in models(root)
    requires models(root)[f] in {Mapping([Scalar, Model(name)]), Collection([Collection([Model(name)])]),
                                 OtherCollection([Model(name)]), Collection([TypingUnion([Model(name), NoneType])])}
    ensures Blind(models, root, [], f) && !SeesAll(models, root)
  {
    OptionalArm(Model(name));
    assert ShapeOf(Model(name)) == ShapeOf(TypingUnion([Model(name), NoneType])) == Of(name);
    assert ShapeOf(Collection([Model(name)])) == Each(Of(name));
    assert SeenShape(models(root)[f]) == Free;
    assert Blind(models, root, [], f);
  }
}
