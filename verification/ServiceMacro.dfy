/** The wiring that `#[service]` generates, and what it tells the container about its reads. */
module ServiceMacro {
  import opened Graphs
  import opened Sequences
  import opened Wrappers
  import opened Syntax
  import opened Resolution
  import opened Containers

  datatype Field = Field(name: string, ty: Type)
  datatype Fields = Named(named: seq<Field>) | Unit | Unnamed

  /** Generated expressions that compute a key. */
  datatype IdExpr = TypeIdOf(ty: Type) | TraitTypeIdOf(ty: Type) {
    function Key(): Id {
      match this
      case TypeIdOf(ty) => Concrete(ty.id)
      case TraitTypeIdOf(ty) => TraitObject(ty.id)
    }
  }

  /** Generated lookups. */
  datatype GetCall = CallGet(ty: Type) | CallGetTrait(ty: Type) {
    /** The key the accessor looks up. */
    function ReadKey(): Id {
      match this
      case CallGet(ty) => Concrete(ty.id)
      case CallGetTrait(ty) => TraitObject(ty.id)
    }
  }

  datatype Expansion = Expansion(
    params: seq<(string, Type)>,
    inits: seq<string>,
    dependencyIds: seq<IdExpr>,
    getCalls: seq<GetCall>)
  {
    function DeclaredKeys(): seq<Id> {
      seq(|dependencyIds|, i requires 0 <= i < |dependencyIds| => dependencyIds[i].Key())
    }

    function ReadKeys(): seq<Id> {
      seq(|getCalls|, i requires 0 <= i < |getCalls| => getCalls[i].ReadKey())
    }
  }

  datatype MacroError = FieldNotArc(ty: Type) | TupleStruct

  function ExtractArcInner(ty: Type): Option<Type> {
    FirstTypeArg(ty, "Arc")
  }

  predicate IsTraitObject(ty: Type) {
    ty.TraitObjectType?
  }

  /** `ty` is written as a path whose last segment is `Arc<inner, ..>`. */
  ghost predicate ArcOf(ty: Type, inner: Type) {
    HasFirstArg(ty, "Arc", inner)
  }

  ghost predicate IsArc(ty: Type) {
    exists inner :: ArcOf(ty, inner)
  }

  lemma ArcInnerIs(ty: Type)
    ensures forall inner :: ArcOf(ty, inner) <==> ExtractArcInner(ty) == Some(inner)
    ensures ExtractArcInner(ty).Some? <==> IsArc(ty)
  {
    if ExtractArcInner(ty).Some? {
      assert ArcOf(ty, ExtractArcInner(ty).value);
    }
  }

  ghost predicate AllArcs(fields: seq<Field>) {
    forall i :: 0 <= i < |fields| ==> IsArc(fields[i].ty)
  }

  /**
   * What stands at one place of the expansion for a field of type `Arc<inner>`: a `dyn` type is declared
   * and read as a trait object, any other type as itself, and both mean the same key.
   */
  ghost predicate Wires(id: IdExpr, call: GetCall, inner: Type) {
    if inner.TraitObjectType? then
      && id == TraitTypeIdOf(inner) && call == CallGetTrait(inner)
      && id.Key() == TraitObject(inner.id) && call.ReadKey() == TraitObject(inner.id)
    else
      && id == TypeIdOf(inner) && call == CallGet(inner)
      && id.Key() == Concrete(inner.id) && call.ReadKey() == Concrete(inner.id)
  }

  /**
   * The expansion of a struct: fields must be `Arc`s; declared keys, keys read, constructor
   * parameters and initialisers all line up with the fields, position by position.
   */
  method ServiceStruct(fields: Fields) returns (r: Result<Expansion, MacroError>)
    ensures r.Ok? <==> fields.Unit? || (fields.Named? && AllArcs(fields.named))
    ensures fields.Unnamed? ==> r == Err(TupleStruct)
    ensures r.Err? && fields.Named? ==>
              exists i :: 0 <= i < |fields.named| && AllArcs(fields.named[..i]) &&
                !IsArc(fields.named[i].ty) && r.error == FieldNotArc(fields.named[i].ty)
    ensures r.Ok? ==>
              var n := if fields.Named? then |fields.named| else 0;
              var e := r.value;
              && |e.params| == |e.inits| == |e.dependencyIds| == |e.getCalls| == n
              && forall i :: 0 <= i < n ==>
                   && e.params[i] == (fields.named[i].name, fields.named[i].ty)
                   && e.inits[i] == fields.named[i].name
                   && forall inner :: ArcOf(fields.named[i].ty, inner) ==> Wires(e.dependencyIds[i], e.getCalls[i], inner)
    ensures r.Ok? ==> r.value.DeclaredKeys() == r.value.ReadKeys()
  {
    var fieldNames: seq<string>, fieldTypes: seq<Type> := [], [];
    var dependencyIds: seq<IdExpr>, getCalls: seq<GetCall> := [], [];
    match fields
    case Unnamed =>
      r := Err(TupleStruct);
    case Unit =>
      r := Ok(Expansion([], [], [], []));
    case Named(named) =>
      var i := 0;
      while i < |named|
        invariant 0 <= i <= |named| && AllArcs(named[..i])
        invariant |fieldNames| == |fieldTypes| == |dependencyIds| == |getCalls| == i
        invariant forall j :: 0 <= j < i ==>
                    && fieldNames[j] == named[j].name && fieldTypes[j] == named[j].ty
                    && dependencyIds[j].Key() == getCalls[j].ReadKey()
                    && forall inner :: ArcOf(named[j].ty, inner) ==> Wires(dependencyIds[j], getCalls[j], inner)
      {
        fieldNames := fieldNames + [named[i].name];
        var inner := ExtractArcInner(named[i].ty);
        ArcInnerIs(named[i].ty);
        if inner.None? {
          return Err(FieldNotArc(named[i].ty));
        }
        fieldTypes := fieldTypes + [named[i].ty];
        if IsTraitObject(inner.value) {
          dependencyIds := dependencyIds + [TraitTypeIdOf(inner.value)];
          getCalls := getCalls + [CallGetTrait(inner.value)];
        } else {
          dependencyIds := dependencyIds + [TypeIdOf(inner.value)];
          getCalls := getCalls + [CallGet(inner.value)];
        }
        i := i + 1;
      }
      assert named[..i] == named;
      var params := seq(|fieldNames|, j requires 0 <= j < |fieldNames| <= |fieldTypes| => (fieldNames[j], fieldTypes[j]));
      r := Ok(Expansion(params, fieldNames, dependencyIds, getCalls));
  }

  /** An annotated struct that expanded, and the trait of its annotation if there is one. */
  datatype Service = Service(name: string, self: Type, traitType: Option<Type>, expansion: Expansion)
  {
    /** The key it is registered under: its trait's if it has one, else its own. */
    function Key(): Id {
      if traitType.Some? then TraitObject(traitType.value.id) else Concrete(self.id)
    }
  }

  /**
   * What one generated registration leaves behind: an honest container with the service under its key,
   * where a factory that reads the declared keys in order and never panics on its own builds it.
   */
  method Register(c: Container, service: Service)
    requires c.Valid() && c.Honest()
    requires service.expansion.DeclaredKeys() == service.expansion.ReadKeys()
    modifies c
    ensures c.Valid() && c.Honest() && c.runs == old(c.runs)
    ensures var wants := service.expansion.ReadKeys();
            var (key, factory) := if service.traitType.Some?
                                  then (TraitObject(service.traitType.value.id),
                                        Build(ArcOfDyn(service.traitType.value.id), wants, false))
                                  else (Concrete(service.self.id), Build(Of(service.self.id), wants, false));
            && c.factories == old(c.factories)[key := factory]
            && c.singletons == old(c.singletons)[key := Empty]
            && c.typeNames == old(c.typeNames)[key := service.name]
            && c.dependencies == old(c.dependencies)[key := service.expansion.DeclaredKeys()]
  {
    var e := service.expansion;
    match service.traitType
    case None => c.RegisterWithDeps(service.self.id, e.ReadKeys(), false, service.name, e.DeclaredKeys());
    case Some(ty) => c.RegisterTraitWithDeps(ty.id, e.ReadKeys(), false, service.name, e.DeclaredKeys());
  }

  /** A generated factory makes its lookups in field order and never panics on its own. */
  function FactoryOf(service: Service): Factory {
    Build(TagFor(service.Key()), service.expansion.ReadKeys(), false)
  }

  function EmptyCellOf(service: Service): Cell {
    Empty
  }

  function NameOf(service: Service): string {
    service.name
  }

  function DeclaredBy(service: Service): seq<Id> {
    service.expansion.DeclaredKeys()
  }

  /** One of the container's maps after a list of services was registered. */
  function Registered<T>(m: map<Id, T>, services: seq<Service>, value: Service -> T): map<Id, T> {
    if services == [] then m
    else
      var last := Last(services);
      Registered(m, services[..|services| - 1], value)[last.Key() := value(last)]
  }

  /** No service among the first `n` after the `i`-th has its key. */
  predicate IsLast(services: seq<Service>, i: nat, n: nat)
    requires i < n <= |services|
  {
    forall j :: i < j < n ==> services[j].Key() != services[i].Key()
  }

  lemma RegisteredNext<T>(m: map<Id, T>, services: seq<Service>, i: nat, value: Service -> T)
    requires i < |services|
    ensures Registered(m, services[..i + 1], value) ==
            Registered(m, services[..i], value)[services[i].Key() := value(services[i])]
  {
    assert services[..i + 1][..i] == services[..i];
  }

  lemma RegisteredNothing(c: Container)
    ensures Registered(c.factories, [], FactoryOf) == c.factories
    ensures Registered(c.singletons, [], EmptyCellOf) == c.singletons
    ensures Registered(c.typeNames, [], NameOf) == c.typeNames
    ensures Registered(c.dependencies, [], DeclaredBy) == c.dependencies
  {
  }

  /** The factory as the two kinds of registration spell it. */
  lemma FactoryIs(service: Service)
    ensures service.traitType.Some? ==>
              && service.Key() == TraitObject(service.traitType.value.id)
              && FactoryOf(service) == Build(ArcOfDyn(service.traitType.value.id), service.expansion.ReadKeys(), false)
    ensures service.traitType.None? ==>
              && service.Key() == Concrete(service.self.id)
              && FactoryOf(service) == Build(Of(service.self.id), service.expansion.ReadKeys(), false)
  {
  }

  lemma {:induction false} RegisteredAreEmpty(cells: Cells, services: seq<Service>)
    ensures forall i :: 0 <= i < |services| ==>
              && services[i].Key() in Registered(cells, services, EmptyCellOf)
              && Registered(cells, services, EmptyCellOf)[services[i].Key()] == Empty
    decreases |services|
  {
    if services == [] {
    } else {
      var front := services[..|services| - 1];
      RegisteredAreEmpty(cells, front);
      assert forall i :: 0 <= i < |front| ==> front[i] == services[i];
    }
  }

  /** The last service under a key stays, and entries under other keys are those of `before`. */
  ghost predicate LastStays<T>(before: map<Id, T>, after: map<Id, T>, services: seq<Service>, value: Service -> T) {
    && (forall i :: 0 <= i < |services| && IsLast(services, i, |services|) ==>
          services[i].Key() in after && after[services[i].Key()] == value(services[i]))
    && (forall k :: k in after ==>
          (exists i :: 0 <= i < |services| && services[i].Key() == k) || (k in before && after[k] == before[k]))
    && (forall k :: k in before && (forall i :: 0 <= i < |services| ==> services[i].Key() != k) ==>
          k in after && after[k] == before[k])
  }

  lemma {:induction false} LastIsRegistered<T>(m: map<Id, T>, services: seq<Service>, value: Service -> T, i: nat)
    requires i < |services| && IsLast(services, i, |services|)
    ensures services[i].Key() in Registered(m, services, value)
    ensures Registered(m, services, value)[services[i].Key()] == value(services[i])
    decreases |services|
  {
    if i == |services| - 1 {
    } else {
      assert services[|services| - 1].Key() != services[i].Key();
      LastIsRegistered(m, services[..|services| - 1], value, i);
    }
  }

  lemma {:induction false} OthersStay<T>(m: map<Id, T>, services: seq<Service>, value: Service -> T)
    ensures var after := Registered(m, services, value);
            && (forall k :: k in after ==>
                  (exists i :: 0 <= i < |services| && services[i].Key() == k) || (k in m && after[k] == m[k]))
            && (forall k :: k in m && (forall i :: 0 <= i < |services| ==> services[i].Key() != k) ==>
                  k in after && after[k] == m[k])
    decreases |services|
  {
    if services == [] {
    } else {
      var front := services[..|services| - 1];
      OthersStay(m, front, value);
      assert forall i :: 0 <= i < |front| ==> front[i] == services[i];
      assert services[|services| - 1].Key() == Last(services).Key();
    }
  }

  lemma RegisteredIs<T>(m: map<Id, T>, services: seq<Service>, value: Service -> T)
    ensures LastStays(m, Registered(m, services, value), services, value)
  {
    OthersStay(m, services, value);
    forall i | 0 <= i < |services| && IsLast(services, i, |services|)
      ensures services[i].Key() in Registered(m, services, value)
      ensures Registered(m, services, value)[services[i].Key()] == value(services[i])
    {
      LastIsRegistered(m, services, value, i);
    }
  }

  /** The registrations only empty cells. */
  lemma {:induction false} NothingRuns(cells: Cells, services: seq<Service>)
    requires forall k :: k in cells ==> !cells[k].Running?
    ensures forall k :: k in Registered(cells, services, EmptyCellOf) ==>
              !Registered(cells, services, EmptyCellOf)[k].Running?
    decreases |services|
  {
    if services == [] {
    } else {
      NothingRuns(cells, services[..|services| - 1]);
    }
  }

  /**
   * The generated registrations of any list of services: the container stays honest, so the
   * declared graph that validation searches is the graph of what the factories read. The last
   * service registered under a key is the one that stays, in all four maps, with an empty cell;
   * entries under other keys are as they were.
   */
  method RegisterAll(c: Container, services: seq<Service>)
    requires c.Valid() && c.Honest()
    requires forall i :: 0 <= i < |services| ==>
               services[i].expansion.DeclaredKeys() == services[i].expansion.ReadKeys()
    modifies c
    ensures c.Valid() && c.Honest() && c.runs == old(c.runs)
    ensures LastStays(old(c.factories), c.factories, services, FactoryOf)
    ensures LastStays(old(c.singletons), c.singletons, services, EmptyCellOf)
    ensures LastStays(old(c.typeNames), c.typeNames, services, NameOf)
    ensures LastStays(old(c.dependencies), c.dependencies, services, DeclaredBy)
    ensures forall i :: 0 <= i < |services| ==>
              services[i].Key() in c.singletons && c.singletons[services[i].Key()] == Empty
    ensures old(c.Quiet()) ==> c.Quiet()
  {
    hide FactoryOf, AllTyped, ReadsOf, IsLast, LastStays, Registered;
    RegisteredNothing(c);
    var i := 0;
    while i < |services|
      invariant 0 <= i <= |services| && c.Valid() && c.Honest() && c.runs == old(c.runs)
      invariant c.factories == Registered(old(c.factories), services[..i], FactoryOf)
      invariant c.singletons == Registered(old(c.singletons), services[..i], EmptyCellOf)
      invariant c.typeNames == Registered(old(c.typeNames), services[..i], NameOf)
      invariant c.dependencies == Registered(old(c.dependencies), services[..i], DeclaredBy)
    {
      RegisteredNext(old(c.factories), services, i, FactoryOf);
      RegisteredNext(old(c.singletons), services, i, EmptyCellOf);
      RegisteredNext(old(c.typeNames), services, i, NameOf);
      RegisteredNext(old(c.dependencies), services, i, DeclaredBy);
      FactoryIs(services[i]);
      Register(c, services[i]);
      i := i + 1;
    }
    assert services[..i] == services;
    RegisteredIs(old(c.factories), services, FactoryOf);
    RegisteredIs(old(c.singletons), services, EmptyCellOf);
    RegisteredIs(old(c.typeNames), services, NameOf);
    RegisteredIs(old(c.dependencies), services, DeclaredBy);
    RegisteredAreEmpty(old(c.singletons), services);
    if old(c.Quiet()) {
      NothingRuns(old(c.singletons), services);
    }
  }
}
