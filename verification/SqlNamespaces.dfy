/**
 Namespaces of the SQL catalog. A namespace is an identity row carrying a marker, or, as
 older catalogs wrote it, only a set of property rows; `exists` is the key older catalogs
 used to record a namespace without properties. The rows refine a plain map from
 namespaces to the properties a caller sees.
 */
module SqlNamespaces {
  import opened Scalars

  type Properties = map<string, string>

  const EXISTS := "exists"
  const VISIBLE := "0"
  const HIDDEN := "1"

  /** Property rows are grouped by namespace; (namespace, key) is their primary key. */
  datatype Tables = Tables(markers: map<string, string>, properties: map<string, Properties>) {
    function RowsOf(ns: string): Properties {
      if ns in properties then properties[ns] else map[]
    }

    predicate Has(ns: string) {
      ns in markers || RowsOf(ns) != map[]
    }

    /** Property rows without an identity row. */
    predicate IsLegacy(ns: string) {
      ns !in markers && RowsOf(ns) != map[]
    }

    function Visible(ns: string): Properties {
      if ns in markers && markers[ns] == VISIBLE then RowsOf(ns) else RowsOf(ns) - {EXISTS}
    }
  }

  /** What a caller sees of the tables. */
  function Abstract(db: Tables): map<string, Properties> {
    map ns | ns in db.markers.Keys + db.properties.Keys && db.Has(ns) :: db.Visible(ns)
  }

  // The plain map the rows are to refine.

  datatype Failure = CommitConflict | CatalogNotFound | DuplicateProperty

  datatype Outcome = Done | Failed(failure: Failure)

  function PlainCreate(names: map<string, Properties>, ns: string, properties: Properties): (map<string, Properties>, Outcome) {
    if ns in names then (names, Failed(CommitConflict)) else (names[ns := properties], Done)
  }

  function PlainDrop(names: map<string, Properties>, ns: string): map<string, Properties> {
    names - {ns}
  }

  function PlainUpdate(names: map<string, Properties>, ns: string, updates: Properties, removals: set<string>): (map<string, Properties>, Outcome) {
    if ns !in names then (names, Failed(CatalogNotFound))
    else (names[ns := (names[ns] - removals) + updates], Done)
  }

  // Row operations.

  /** The creating transaction looks at no property row; it only inserts, under the two primary keys. */
  function CreateRows(db: Tables, ns: string, initial: Properties): (Tables, Outcome) {
    if ns in db.markers then (db, Failed(CommitConflict))
    else if db.RowsOf(ns).Keys !! initial.Keys then
      (Tables(db.markers[ns := VISIBLE], db.properties[ns := db.RowsOf(ns) + initial]), Done)
    else (db, Failed(DuplicateProperty))
  }

  function DropRows(db: Tables, ns: string): Tables {
    Tables(db.markers - {ns}, db.properties - {ns})
  }

  function Promoted(db: Tables, ns: string): map<string, string> {
    if ns in db.markers then db.markers
    else db.markers[ns := if EXISTS in db.RowsOf(ns) then HIDDEN else VISIBLE]
  }

  function UpdateRows(db: Tables, ns: string, updates: Properties, removals: set<string>): (Tables, Outcome) {
    if !db.Has(ns) then (db, Failed(CatalogNotFound))
    else
      var markers := Promoted(db, ns);
      (Tables(
        if EXISTS in removals || EXISTS in updates then markers[ns := VISIBLE] else markers,
        db.properties[ns := (db.RowsOf(ns) - removals) + updates]),
       Done)
  }

  // Refinement, operation by operation.

  /** Rewriting one namespace's rows rewrites its entry in the map and no other. */
  lemma AbstractAt(before: Tables, after: Tables, ns: string, marker: string)
    requires after.markers == before.markers[ns := marker]
    requires after.properties == before.properties[ns := after.RowsOf(ns)]
    ensures Abstract(after) == Abstract(before)[ns := after.Visible(ns)]
  {
    forall other | other != ns
      ensures after.Has(other) <==> before.Has(other)
      ensures after.Visible(other) == before.Visible(other)
    {
      assert after.RowsOf(other) == before.RowsOf(other);
      assert other in after.markers <==> other in before.markers;
    }
    var x, y := Abstract(after), Abstract(before)[ns := after.Visible(ns)];
    forall other
      ensures other in x <==> other in y
      ensures other in x ==> x[other] == y[other]
    {
      assert other != ns ==> (other in before.properties <==> other in after.properties);
    }
  }

  lemma CreateRefines(db: Tables, ns: string, initial: Properties)
    requires !db.IsLegacy(ns)
    ensures
      var (next, outcome) := CreateRows(db, ns, initial);
      (Abstract(next), outcome) == PlainCreate(Abstract(db), ns, initial)
  {
    if ns !in db.markers {
      var next := CreateRows(db, ns, initial).0;
      assert next.Visible(ns) == initial;
      AbstractAt(db, next, ns, VISIBLE);
    }
  }

  /** The creating transaction alone refines the plain create exactly on names that are not legacy. */
  lemma CreateRefinesIff(db: Tables, ns: string, initial: Properties)
    ensures
      var (next, outcome) := CreateRows(db, ns, initial);
      (Abstract(next), outcome) == PlainCreate(Abstract(db), ns, initial) <==> !db.IsLegacy(ns)
  {
    if db.IsLegacy(ns) {
      assert ns in Abstract(db);
    } else {
      CreateRefines(db, ns, initial);
    }
  }

  lemma DropRefines(db: Tables, ns: string)
    ensures Abstract(DropRows(db, ns)) == PlainDrop(Abstract(db), ns)
  {
  }

  lemma UpdateRefines(db: Tables, ns: string, updates: Properties, removals: set<string>)
    ensures
      var (next, outcome) := UpdateRows(db, ns, updates, removals);
      (Abstract(next), outcome) == PlainUpdate(Abstract(db), ns, updates, removals)
  {
    if db.Has(ns) {
      UpdateView(db, ns, updates, removals);
      var next := UpdateRows(db, ns, updates, removals).0;
      AbstractAt(db, next, ns, next.markers[ns]);
    }
  }

  lemma UpdateView(db: Tables, ns: string, updates: Properties, removals: set<string>)
    requires db.Has(ns)
    ensures UpdateRows(db, ns, updates, removals).0.Visible(ns) == (db.Visible(ns) - removals) + updates
  {
  }

  // Any number of clients, transaction by transaction.

  /** A creating call looks for the namespace first and inserts in a later transaction. */
  datatype Action =
    | Precheck(call: nat, ns: string, properties: Properties)
    | Insert(call: nat)
    | Update(ns: string, updates: Properties, removals: set<string>)
    | Drop(ns: string)

  datatype Pending = Pending(ns: string, properties: Properties)

  datatype System = System(db: Tables, pending: map<nat, Pending>)

  datatype Plain = Plain(names: map<string, Properties>, pending: map<nat, Pending>)

  /** Each step with the outcome it reports, if it ends its call. */
  function Step(s: System, a: Action): (System, Option<Outcome>) {
    match a
    case Precheck(call, ns, properties) =>
      if call in s.pending then (s, None)
      else if s.db.Has(ns) then (s, Some(Failed(CommitConflict)))
      else (s.(pending := s.pending[call := Pending(ns, properties)]), None)
    case Insert(call) =>
      if call !in s.pending then (s, None)
      else
        var (db, outcome) := CreateRows(s.db, s.pending[call].ns, s.pending[call].properties);
        (System(db, s.pending - {call}), Some(outcome))
    case Update(ns, updates, removals) =>
      var (db, outcome) := UpdateRows(s.db, ns, updates, removals);
      (s.(db := db), Some(outcome))
    case Drop(ns) =>
      (s.(db := if s.db.Has(ns) then DropRows(s.db, ns) else s.db), Some(Done))
  }

  function PlainStep(s: Plain, a: Action): (Plain, Option<Outcome>) {
    match a
    case Precheck(call, ns, properties) =>
      if call in s.pending then (s, None)
      else if ns in s.names then (s, Some(Failed(CommitConflict)))
      else (s.(pending := s.pending[call := Pending(ns, properties)]), None)
    case Insert(call) =>
      if call !in s.pending then (s, None)
      else
        var (names, outcome) := PlainCreate(s.names, s.pending[call].ns, s.pending[call].properties);
        (Plain(names, s.pending - {call}), Some(outcome))
    case Update(ns, updates, removals) =>
      var (names, outcome) := PlainUpdate(s.names, ns, updates, removals);
      (s.(names := names), Some(outcome))
    case Drop(ns) =>
      (s.(names := PlainDrop(s.names, ns)), Some(Done))
  }

  function View(s: System): Plain {
    Plain(Abstract(s.db), s.pending)
  }

  function Run(s: System, actions: seq<Action>): (System, seq<Option<Outcome>>)
    decreases |actions|
  {
    if actions == [] then (s, [])
    else
      var (next, outcome) := Step(s, actions[0]);
      var (last, outcomes) := Run(next, actions[1..]);
      (last, [outcome] + outcomes)
  }

  function PlainRun(s: Plain, actions: seq<Action>): (Plain, seq<Option<Outcome>>)
    decreases |actions|
  {
    if actions == [] then (s, [])
    else
      var (next, outcome) := PlainStep(s, actions[0]);
      var (last, outcomes) := PlainRun(next, actions[1..]);
      (last, [outcome] + outcomes)
  }

  /** Whoever passed the precheck inserts into a namespace that is not, and will not become, legacy. */
  predicate NoLegacyPending(s: System) {
    forall call :: call in s.pending ==> !s.db.IsLegacy(s.pending[call].ns)
  }

  /** Every step only shrinks the legacy namespaces. */
  lemma LegacyOnlyShrinks(s: System, a: Action, ns: string)
    ensures Step(s, a).0.db.IsLegacy(ns) ==> s.db.IsLegacy(ns)
  {
    var next := Step(s, a).0.db;
    if ns in s.db.markers && ns !in next.markers {
      assert a == Drop(ns);
    }
  }

  lemma StepRefines(s: System, a: Action)
    requires NoLegacyPending(s)
    ensures (View(Step(s, a).0), Step(s, a).1) == PlainStep(View(s), a)
    ensures NoLegacyPending(Step(s, a).0)
  {
    forall ns ensures Step(s, a).0.db.IsLegacy(ns) ==> s.db.IsLegacy(ns) {
      LegacyOnlyShrinks(s, a, ns);
    }
    match a
    case Precheck(_, _, _) =>
    case Insert(call) =>
      if call in s.pending {
        CreateRefines(s.db, s.pending[call].ns, s.pending[call].properties);
      }
    case Update(ns, updates, removals) => UpdateRefines(s.db, ns, updates, removals);
    case Drop(ns) =>
      DropRefines(s.db, ns);
      assert !s.db.Has(ns) ==> Abstract(s.db) - {ns} == Abstract(s.db);
  }

  /**
   Over every run of any number of clients, starting from any mix of current and legacy
   rows, the rows and every reported outcome are those of a plain map of maps in which a
   create is one atomic insert-if-absent at its insert.
   */
  lemma {:induction false} RunRefines(s: System, actions: seq<Action>)
    requires NoLegacyPending(s)
    ensures (View(Run(s, actions).0), Run(s, actions).1) == PlainRun(View(s), actions)
    decreases |actions|
  {
    if actions != [] {
      StepRefines(s, actions[0]);
      RunRefines(Step(s, actions[0]).0, actions[1..]);
    }
  }

  /** A namespace stays until it is dropped, whatever properties updates remove meanwhile. */
  lemma {:induction false} NamespaceStays(s: System, actions: seq<Action>, ns: string)
    requires s.db.Has(ns)
    requires Drop(ns) !in actions
    ensures ns in Abstract(Run(s, actions).0.db)
    decreases |actions|
  {
    if actions != [] {
      NamespaceStays(Step(s, actions[0]).0, actions[1..], ns);
    }
  }

  /**
   The precheck is what protects legacy names: once an older writer adds property rows
   after it, the insert reports success on a namespace that already had properties.
   */
  lemma LegacyWriterRace(ns: string, found: Properties, initial: Properties)
    requires found != map[] && found.Keys !! initial.Keys
    ensures
      var meanwhile := Tables(map[], map[ns := found]);
      var (next, outcome) := CreateRows(meanwhile, ns, initial);
      ns in Abstract(meanwhile) && outcome == Done && Abstract(next)[ns] == found + initial
  {
    assert Tables(map[], map[ns := found]).Has(ns);
    assert CreateRows(Tables(map[], map[ns := found]), ns, initial).0.Has(ns);
  }

  lemma UpsertOne(rows: Properties, updates: Properties, left: set<string>, key: string)
    requires key in left && left <= updates.Keys
    ensures (rows + (updates - left))[key := updates[key]] == rows + (updates - (left - {key}))
  {
  }

  // The catalog's calls.

  datatype NamespaceState = Current | Legacy | Missing

  class Database {
    var markers: map<string, string>
    var properties: map<string, Properties>

    function Rows(): Tables
      reads this
    {
      Tables(markers, properties)
    }

    constructor ()
      ensures Abstract(Rows()) == map[]
    {
      markers, properties := map[], map[];
    }

    method Lock(ns: string) returns (state: NamespaceState)
      ensures state == if ns in markers then Current else if Rows().Has(ns) then Legacy else Missing
    {
      if ns in markers {
        return Current;
      }
      return if Rows().RowsOf(ns) == map[] then Missing else Legacy;
    }

    method NamespaceExists(ns: string) returns (found: bool)
      ensures found == (ns in Abstract(Rows()))
    {
      found := ns in markers || Rows().RowsOf(ns) != map[];
    }

    method CreateNamespace(ns: string, initial: Properties) returns (outcome: Outcome)
      modifies this
      ensures (Abstract(Rows()), outcome) == PlainCreate(old(Abstract(Rows())), ns, initial)
    {
      var found := NamespaceExists(ns);
      if found {
        return Failed(CommitConflict);
      }
      CreateRefines(Rows(), ns, initial);
      markers := markers[ns := VISIBLE];
      InsertAll(ns, initial);
      assert old(Rows()).RowsOf(ns) + initial == initial;
      assert Rows() == CreateRows(old(Rows()), ns, initial).0;
      outcome := Done;
    }

    method InsertAll(ns: string, added: Properties)
      requires Rows().RowsOf(ns) == map[]
      modifies this`properties
      ensures properties == old(properties)[ns := added]
    {
      ghost var before := properties;
      properties := properties[ns := map[]];
      var left := added.Keys;
      assert added - left == map[];
      while left != {}
        invariant left <= added.Keys
        invariant properties == before[ns := added - left]
        decreases left
      {
        var key :| key in left;
        properties := properties[ns := properties[ns][key := added[key]]];
        assert (added - left)[key := added[key]] == added - (left - {key});
        left := left - {key};
      }
      assert added - left == added;
    }

    method LoadNamespace(ns: string) returns (loaded: Properties)
      ensures loaded == if ns in Abstract(Rows()) then Abstract(Rows())[ns] else map[]
    {
      var rows := Rows().RowsOf(ns);
      var marker := if ns in markers then Some(markers[ns]) else None;
      var left := rows.Keys;
      loaded := map[];
      while left != {}
        invariant left <= rows.Keys
        invariant loaded == Rows().Visible(ns) - left
        decreases left
      {
        var key :| key in left;
        if !(key == EXISTS && marker != Some(VISIBLE)) {
          loaded := loaded[key := rows[key]];
        }
        left := left - {key};
      }
    }

    method UpdateNamespace(ns: string, updates: Properties, removals: seq<string>) returns (outcome: Outcome)
      modifies this
      ensures (Abstract(Rows()), outcome) == PlainUpdate(old(Abstract(Rows())), ns, updates, set key | key in removals)
    {
      ghost var removed := set key | key in removals;
      UpdateRefines(Rows(), ns, updates, removed);
      var state := Lock(ns);
      match state {
        case Missing => return Failed(CatalogNotFound);
        case Current =>
        case Legacy =>
          markers := markers[ns := if EXISTS in Rows().RowsOf(ns) then HIDDEN else VISIBLE];
      }
      assert markers == Promoted(old(Rows()), ns);
      WriteUpdate(ns, updates, removals);
      assert Rows() == UpdateRows(old(Rows()), ns, updates, removed).0;
      outcome := Done;
    }

    method WriteUpdate(ns: string, updates: Properties, removals: seq<string>)
      requires ns in markers
      modifies this
      ensures markers == if EXISTS in removals || EXISTS in updates then old(markers)[ns := VISIBLE] else old(markers)
      ensures properties == old(properties)[ns := (old(Rows()).RowsOf(ns) - set key | key in removals) + updates]
    {
      RemoveKeys(ns, removals);
      Upsert(ns, updates);
      if EXISTS in removals || EXISTS in updates {
        markers := markers[ns := VISIBLE];
      }
    }

    method RemoveKeys(ns: string, removals: seq<string>)
      modifies this`properties
      ensures properties == old(properties)[ns := old(Rows()).RowsOf(ns) - set key | key in removals]
    {
      ghost var before, rows := properties, Rows().RowsOf(ns);
      properties := properties[ns := Rows().RowsOf(ns)];
      for i := 0 to |removals|
        invariant ns in properties && properties == before[ns := properties[ns]]
        invariant properties[ns] == rows - set key | key in removals[..i]
      {
        DeleteRow(ns, removals[i]);
        assert removals[..i + 1] == removals[..i] + [removals[i]];
      }
      assert removals[..|removals|] == removals;
    }

    method Upsert(ns: string, updates: Properties)
      modifies this`properties
      ensures properties == old(properties)[ns := old(Rows()).RowsOf(ns) + updates]
    {
      ghost var before, rows := properties, Rows().RowsOf(ns);
      properties := properties[ns := Rows().RowsOf(ns)];
      var left := updates.Keys;
      assert rows + (updates - left) == rows;
      while left != {}
        invariant left <= updates.Keys
        invariant ns in properties && properties == before[ns := properties[ns]]
        invariant properties[ns] == rows + (updates - left)
        decreases left
      {
        var key :| key in left;
        UpsertOne(rows, updates, left, key);
        ReplaceRow(ns, key, updates[key]);
        left := left - {key};
      }
      assert updates - left == updates;
    }

    method DeleteRow(ns: string, key: string)
      modifies this`properties
      ensures properties == old(properties)[ns := old(Rows()).RowsOf(ns) - {key}]
    {
      properties := properties[ns := Rows().RowsOf(ns) - {key}];
    }

    /** Deletes and reinserts. */
    method ReplaceRow(ns: string, key: string, value: string)
      modifies this`properties
      ensures properties == old(properties)[ns := old(Rows()).RowsOf(ns)[key := value]]
    {
      DeleteRow(ns, key);
      properties := properties[ns := Rows().RowsOf(ns)[key := value]];
      assert (old(Rows()).RowsOf(ns) - {key})[key := value] == old(Rows()).RowsOf(ns)[key := value];
    }

    method DropNamespace(ns: string)
      modifies this
      ensures Abstract(Rows()) == PlainDrop(old(Abstract(Rows())), ns)
    {
      var state := Lock(ns);
      DropRefines(Rows(), ns);
      if state.Missing? {
        return;
      }
      properties := properties - {ns};
      markers := markers - {ns};
    }
  }
}
