/** Property values of graph nodes and the append-only merge of two property sets, stated twice:
    as the loop of the in-memory backend (`kernel/graph_support.py`) and as the guarded upsert of
    the PostgreSQL backend (`kernel/graph_postgres_queries.py`), with the exact condition under
    which the two accept the same merges. */
module Props {
  import opened Options

  /** A JSON-like Python value. `Num` covers int and float, which Python and jsonb both compare
      by numeric value. */
  datatype Value =
    | Null
    | Bool(b: bool)
    | Num(n: real)
    | Text(s: string)
    | ListV(items: seq<Value>)
    | TupleV(items: seq<Value>)
    | DictV(entries: map<string, Value>)

  type Props = map<string, Value>

  /** Freezing turns every list into a tuple, at every depth. The JSON image of a value makes the
      same identification (both sequence types become arrays), so two values have the same JSON
      image exactly when they freeze to the same value. */
  function Freeze(v: Value): Value {
    match v
    case ListV(items) => TupleV(FreezeAll(items))
    case TupleV(items) => TupleV(FreezeAll(items))
    case DictV(entries) => DictV(map k | k in entries :: Freeze(entries[k]))
    case _ => v
  }

  function FreezeAll(items: seq<Value>): (r: seq<Value>)
    ensures |r| == |items|
    ensures forall i :: 0 <= i < |items| ==> r[i] == Freeze(items[i])
  {
    if items == [] then [] else [Freeze(items[0])] + FreezeAll(items[1..])
  }

  function FreezeProps(p: Props): (r: Props)
    ensures r.Keys == p.Keys
  {
    map k | k in p :: Freeze(p[k])
  }

  /** Python's `==` does not tell True from 1 nor False from 0, at any depth. */
  function Numeric(v: Value): Value {
    match v
    case Bool(b) => Num(if b then 1.0 else 0.0)
    case ListV(items) => ListV(NumericAll(items))
    case TupleV(items) => TupleV(NumericAll(items))
    case DictV(entries) => DictV(map k | k in entries :: Numeric(entries[k]))
    case _ => v
  }

  function NumericAll(items: seq<Value>): seq<Value> {
    if items == [] then [] else [Numeric(items[0])] + NumericAll(items[1..])
  }

  /** `_frozen_value(a) == _frozen_value(b)` in Python. */
  predicate PyEqual(a: Value, b: Value) {
    Numeric(Freeze(a)) == Numeric(Freeze(b))
  }

  /** `a = b` on the jsonb images, where a boolean never equals a number. */
  predicate JsonEqual(a: Value, b: Value) {
    Freeze(a) == Freeze(b)
  }

  predicate IsSequence(v: Value) { v.ListV? || v.TupleV? }

  /** The number a value is to Python. */
  function NumberOf(v: Value): Option<real> {
    match v
    case Num(x) => Some(x)
    case Bool(b) => Some(if b then 1.0 else 0.0)
    case _ => None
  }

  /** Two sequences whose members Python takes for equal. */
  predicate SameItems(a: seq<Value>, b: seq<Value>) {
    |a| == |b| && forall i :: 0 <= i < |a| ==> PyEqual(a[i], b[i])
  }

  predicate SameEntries(a: Props, b: Props) {
    a.Keys == b.Keys && forall k :: k in a ==> PyEqual(a[k], b[k])
  }

  /** Python's comparison of frozen values: numbers and booleans by their number, sequences of both types
      and dicts member by member, everything else by being the same. */
  lemma PyEqualExactly(a: Value, b: Value)
    ensures PyEqual(a, b) <==>
            if NumberOf(a).Some? then NumberOf(b) == NumberOf(a)
            else if IsSequence(a) then IsSequence(b) && SameItems(a.items, b.items)
            else if a.DictV? then b.DictV? && SameEntries(a.entries, b.entries)
            else a == b
  {
    if IsSequence(a) && IsSequence(b) { SequencesEqual(a, b); }
    if a.DictV? && b.DictV? { DictsEqual(a, b); }
    hide SameItems, SameEntries;
  }

  lemma SequencesEqual(a: Value, b: Value)
    requires IsSequence(a) && IsSequence(b)
    ensures PyEqual(a, b) <==> SameItems(a.items, b.items)
  {
    var x, y := FreezeAll(a.items), FreezeAll(b.items);
    hide Numeric, Freeze, FreezeAll, NumericAll;
    SequenceFrozen(a);
    SequenceFrozen(b);
    NumericOfAll(x);
    NumericOfAll(y);
    MembersEqual(NumericAll(x), NumericAll(y));
  }

  lemma SequenceFrozen(v: Value)
    requires IsSequence(v)
    ensures Freeze(v) == TupleV(FreezeAll(v.items))
    ensures Numeric(Freeze(v)) == TupleV(NumericAll(FreezeAll(v.items)))
  {
  }

  lemma DictsEqual(a: Value, b: Value)
    requires a.DictV? && b.DictV?
    ensures PyEqual(a, b) <==> SameEntries(a.entries, b.entries)
  {
    var x, y := Numeric(Freeze(a)).entries, Numeric(Freeze(b)).entries;
    assert forall k :: k in a.entries ==> x[k] == Numeric(Freeze(a.entries[k]));
    assert forall k :: k in b.entries ==> y[k] == Numeric(Freeze(b.entries[k]));
    assert x.Keys == a.entries.Keys && y.Keys == b.entries.Keys && (PyEqual(a, b) <==> x == y);
    hide Numeric, Freeze;
    EntriesEqual(x, y);
  }

  lemma {:induction false} NumericOfAll(items: seq<Value>)
    ensures |NumericAll(items)| == |items| && forall i :: 0 <= i < |items| ==> NumericAll(items)[i] == Numeric(items[i])
  {
    if items != [] { NumericOfAll(items[1..]); }
  }

  lemma MembersEqual(s: seq<Value>, t: seq<Value>)
    ensures s == t <==> |s| == |t| && forall i :: 0 <= i < |s| ==> s[i] == t[i]
  {
  }

  lemma EntriesEqual(p: Props, q: Props)
    ensures p == q <==> p.Keys == q.Keys && forall k :: k in p ==> p[k] == q[k]
  {
  }

  predicate SameJsonItems(a: seq<Value>, b: seq<Value>) {
    |a| == |b| && forall i :: 0 <= i < |a| ==> JsonEqual(a[i], b[i])
  }

  predicate SameJsonEntries(a: Props, b: Props) {
    a.Keys == b.Keys && forall k :: k in a ==> JsonEqual(a[k], b[k])
  }

  /** Equality of the jsonb images: the same, but for numbers and booleans. */
  lemma JsonEqualExactly(a: Value, b: Value)
    ensures JsonEqual(a, b) <==>
            if IsSequence(a) then IsSequence(b) && SameJsonItems(a.items, b.items)
            else if a.DictV? then b.DictV? && SameJsonEntries(a.entries, b.entries)
            else a == b
  {
    if IsSequence(a) && IsSequence(b) { JsonSequences(a, b); }
    if a.DictV? && b.DictV? { JsonDicts(a, b); }
    hide SameJsonItems, SameJsonEntries;
  }

  lemma JsonSequences(a: Value, b: Value)
    requires IsSequence(a) && IsSequence(b)
    ensures JsonEqual(a, b) <==> SameJsonItems(a.items, b.items)
  {
    hide Freeze, FreezeAll;
    SequenceFrozen(a);
    SequenceFrozen(b);
    MembersEqual(FreezeAll(a.items), FreezeAll(b.items));
  }

  lemma JsonDicts(a: Value, b: Value)
    requires a.DictV? && b.DictV?
    ensures JsonEqual(a, b) <==> SameJsonEntries(a.entries, b.entries)
  {
    var x, y := Freeze(a).entries, Freeze(b).entries;
    assert forall k :: k in a.entries ==> x[k] == Freeze(a.entries[k]);
    assert forall k :: k in b.entries ==> y[k] == Freeze(b.entries[k]);
    assert x.Keys == a.entries.Keys && y.Keys == b.entries.Keys && (JsonEqual(a, b) <==> x == y);
    hide Freeze;
    EntriesEqual(x, y);
  }

  lemma {:induction false} FreezeIdempotent(v: Value)
    ensures Freeze(Freeze(v)) == Freeze(v)
  {
    match v
    case ListV(items) => FreezeAllIdempotent(items);
    case TupleV(items) => FreezeAllIdempotent(items);
    case DictV(entries) =>
      forall k | k in entries ensures Freeze(Freeze(entries[k])) == Freeze(entries[k]) {
        FreezeIdempotent(entries[k]);
      }
    case _ =>
  }

  lemma {:induction false} FreezeAllIdempotent(items: seq<Value>)
    ensures FreezeAll(FreezeAll(items)) == FreezeAll(items)
  {
    forall i | 0 <= i < |items| ensures Freeze(Freeze(items[i])) == Freeze(items[i]) {
      FreezeIdempotent(items[i]);
    }
  }

  // ----- the in-memory merge -------------------------------------------------------------------

  const STATUS := "broker_status"
  const COMPLETION: set<string> :=
    {"broker_status", "broker_price_cents", "broker_status_refreshed_at", "realized_pnl_cents"}

  predicate HasText(p: Props, name: string, text: string) {
    name in p && p[name] == Text(text)
  }

  /** The one merge that may overwrite: a partial fill becoming filled. */
  predicate CompletesPartial(existing: Props, incoming: Props) {
    HasText(existing, STATUS, "partial") && HasText(incoming, STATUS, "filled")
  }

  predicate Exempt(existing: Props, incoming: Props, name: string) {
    name in COMPLETION && CompletesPartial(existing, incoming)
  }

  predicate Refused(existing: Props, incoming: Props, name: string) {
    && name in existing && name in incoming
    && !PyEqual(existing[name], incoming[name])
    && !Exempt(existing, incoming, name)
  }

  datatype Appended = Merged(props: Props) | Overwrite(name: string)

  predicate Accepts(existing: Props, incoming: Props) {
    forall name :: name in incoming ==> !Refused(existing, incoming, name)
  }

  /** What an accepted merge holds: every incoming value frozen, everything else kept. */
  function Union(existing: Props, incoming: Props): Props {
    existing + FreezeProps(incoming)
  }

  /** `order` is the iteration order of the incoming dict. */
  ghost predicate Enumerates<K, V>(order: seq<K>, p: map<K, V>) {
    && (forall i, j :: 0 <= i < j < |order| ==> order[i] != order[j])
    && (forall i :: 0 <= i < |order| ==> order[i] in p)
    && (forall name :: name in p ==> exists i :: 0 <= i < |order| && order[i] == name)
  }

  /** The loop of `_append_props`: it raises at the first name, in dict order, that may not be
      overwritten, and otherwise returns the union. */
  method AppendProps(existing: Props, incoming: Props, order: seq<string>) returns (r: Appended)
    requires Enumerates(order, incoming)
    ensures r.Merged? <==> Accepts(existing, incoming)
    ensures r.Merged? ==> r.props == Union(existing, incoming)
    ensures r.Overwrite? ==>
      exists i :: 0 <= i < |order| && order[i] == r.name && Refused(existing, incoming, r.name)
                  && forall j :: 0 <= j < i ==> !Refused(existing, incoming, order[j])
  {
    hide Refused, Exempt, PyEqual, Freeze, Numeric, Union;
    var merged := existing;
    for i := 0 to |order|
      invariant forall j :: 0 <= j < i ==> !Refused(existing, incoming, order[j])
      invariant merged == Written(existing, FreezeProps(incoming), order, i)
    {
      WrittenNext(existing, incoming, order, i);
      var name := order[i];
      var frozen := Freeze(incoming[name]);
      if name in merged && Numeric(Freeze(merged[name])) != Numeric(frozen)
         && !Exempt(existing, incoming, name) {
        return Overwrite(name);
      }
      merged := merged[name := frozen];
    }
    WrittenAll(existing, incoming, order);
    return Merged(merged);
  }

  /** `existing` after the first `i` names of `order` were written over it. */
  ghost function Written<K, V>(existing: map<K, V>, incoming: map<K, V>, order: seq<K>, i: nat): map<K, V>
    requires i <= |order| && forall j :: 0 <= j < |order| ==> order[j] in incoming
  {
    if i == 0 then existing
    else Written(existing, incoming, order, i - 1)[order[i - 1] := incoming[order[i - 1]]]
  }

  lemma {:induction false} WrittenSoFar<K, V>(existing: map<K, V>, incoming: map<K, V>, order: seq<K>, i: nat)
    requires Enumerates(order, incoming) && i <= |order|
    ensures var w := Written(existing, incoming, order, i);
            && w.Keys <= existing.Keys + incoming.Keys && existing.Keys <= w.Keys
            && (forall j :: 0 <= j < i ==> order[j] in w && w[order[j]] == incoming[order[j]])
            && (forall j :: i <= j < |order| && order[j] in w ==>
                  order[j] in existing && w[order[j]] == existing[order[j]])
            && (forall name :: name in w && name !in incoming ==> w[name] == existing[name])
  {
    if i > 0 { WrittenSoFar(existing, incoming, order, i - 1); }
  }

  /** The loop's test at name `i` is the refusal of that name. */
  lemma WrittenNext(existing: Props, incoming: Props, order: seq<string>, i: nat)
    requires Enumerates(order, incoming) && i < |order|
    ensures var name, merged := order[i], Written(existing, FreezeProps(incoming), order, i);
            (name in merged && Numeric(Freeze(merged[name])) != Numeric(Freeze(incoming[name]))
             && !Exempt(existing, incoming, name)) == Refused(existing, incoming, name)
  {
    hide Freeze, Numeric, Exempt;
    WrittenSoFar(existing, FreezeProps(incoming), order, i);
  }

  lemma WrittenAll(existing: Props, incoming: Props, order: seq<string>)
    requires Enumerates(order, incoming)
    ensures Written(existing, FreezeProps(incoming), order, |order|) == Union(existing, incoming)
    ensures (forall j :: 0 <= j < |order| ==> !Refused(existing, incoming, order[j])) <==> Accepts(existing, incoming)
  {
    hide Freeze, Numeric, Exempt, Refused;
    WrittenSoFar(existing, FreezeProps(incoming), order, |order|);
  }

  // ----- the SQL merge -------------------------------------------------------------------------

  /** SQL's three truth values. */
  datatype Truth = True | False | Unknown

  function And(a: Truth, b: Truth): Truth {
    if a == False || b == False then False
    else if a == True && b == True then True
    else Unknown
  }

  function Not(a: Truth): Truth {
    match a
    case True => False
    case False => True
    case Unknown => Unknown
  }

  function Known(b: bool): Truth { if b then True else False }

  /** `props ->> name`: NULL for a missing key and for a JSON null; the JSON text of a value that
      is not a string, which is never one of the two status words. */
  datatype SqlText = SqlNull | Plain(s: string) | Rendered

  function ArrowText(p: Props, name: string): SqlText {
    if name !in p || p[name] == Null then SqlNull
    else if p[name].Text? then Plain(p[name].s)
    else Rendered
  }

  function TextEquals(t: SqlText, word: string): Truth {
    match t
    case SqlNull => Unknown
    case Plain(s) => Known(s == word)
    case Rendered => False
  }

  /** The status half of the exemption, in three-valued logic. */
  function SqlCompletes(existing: Props, incoming: Props): Truth {
    And(TextEquals(ArrowText(existing, STATUS), "partial"),
        TextEquals(ArrowText(incoming, STATUS), "filled"))
  }

  /** The WHERE clause of the NOT EXISTS subquery for one incoming key. */
  function SqlConflict(existing: Props, incoming: Props, name: string): Truth
    requires name in incoming
  {
    And(Known(name in existing && !JsonEqual(existing[name], incoming[name])),
        Not(And(SqlCompletes(existing, incoming), Known(name in COMPLETION))))
  }

  /** A row satisfies NOT EXISTS when no incoming key makes the subquery's WHERE clause true;
      an unknown WHERE clause selects nothing. */
  predicate SqlAccepts(existing: Props, incoming: Props) {
    forall name :: name in incoming ==> SqlConflict(existing, incoming, name) != True
  }

  /** `nodes.props || EXCLUDED.props` on the JSON images. */
  function SqlUnion(existing: Props, incoming: Props): Props {
    FreezeProps(existing) + FreezeProps(incoming)
  }

  // ----- when the two backends agree -----------------------------------------------------------

  /** A conflict Python sees. */
  predicate PyConflict(existing: Props, incoming: Props, name: string) {
    name in existing && name in incoming && !PyEqual(existing[name], incoming[name])
  }

  /** A boolean meeting the number it equals in Python: a conflict only jsonb sees. */
  predicate BoolMeetsNumber(existing: Props, incoming: Props, name: string) {
    && name in existing && name in incoming
    && PyEqual(existing[name], incoming[name]) && !JsonEqual(existing[name], incoming[name])
  }

  /** Accepted results have one JSON image on both backends. */
  lemma SameResult(existing: Props, incoming: Props)
    ensures FreezeProps(Union(existing, incoming)) == SqlUnion(existing, incoming)
  {
    forall name | name in incoming ensures Freeze(Freeze(incoming[name])) == Freeze(incoming[name]) {
      FreezeIdempotent(incoming[name]);
    }
  }

  /** SQL lets a merge through that Python refuses exactly when its exemption is unknown, there is
      a conflict, and every conflict is on a completion property. */
  lemma SqlIsLooserExactly(existing: Props, incoming: Props)
    ensures SqlAccepts(existing, incoming) && !Accepts(existing, incoming) <==>
            && SqlCompletes(existing, incoming) == Unknown
            && (exists name :: PyConflict(existing, incoming, name))
            && (forall name :: PyConflict(existing, incoming, name) || BoolMeetsNumber(existing, incoming, name)
                  ==> name in COMPLETION)
  {
    ConflictCases(existing, incoming);
    if SqlAccepts(existing, incoming) && !Accepts(existing, incoming) {
      var bad :| bad in incoming && Refused(existing, incoming, bad);
      assert PyConflict(existing, incoming, bad);
      assert SqlConflict(existing, incoming, bad) != True;
    }
  }

  /** Python lets a merge through that SQL refuses exactly when all it sees in conflict is exempt
      and some boolean meets its number on a key the SQL exemption does not cover. */
  lemma SqlIsStricterExactly(existing: Props, incoming: Props)
    ensures Accepts(existing, incoming) && !SqlAccepts(existing, incoming) <==>
            && (forall name :: PyConflict(existing, incoming, name) ==>
                  name in COMPLETION && CompletesPartial(existing, incoming))
            && (exists name :: BoolMeetsNumber(existing, incoming, name)
                  && (name !in COMPLETION || SqlCompletes(existing, incoming) == False))
  {
    ConflictCases(existing, incoming);
    if Accepts(existing, incoming) && !SqlAccepts(existing, incoming) {
      var bad :| bad in incoming && SqlConflict(existing, incoming, bad) == True;
      assert !Refused(existing, incoming, bad);
      assert BoolMeetsNumber(existing, incoming, bad);
    }
  }

  lemma ConflictCases(existing: Props, incoming: Props)
    ensures CompletesPartial(existing, incoming) <==> SqlCompletes(existing, incoming) == True
    ensures forall name :: name in incoming ==>
      (SqlConflict(existing, incoming, name) == True <==>
        (PyConflict(existing, incoming, name) || BoolMeetsNumber(existing, incoming, name))
        && (name !in COMPLETION || SqlCompletes(existing, incoming) == False))
    ensures forall name :: name in incoming ==>
      (Refused(existing, incoming, name) <==>
        PyConflict(existing, incoming, name) && (name !in COMPLETION || SqlCompletes(existing, incoming) != True))
  {
  }

  /** The guard a caller can keep: with a status on both sides, or no conflict on a completion
      property, and no boolean stored against a number, the backends take the same merges. */
  lemma BackendsAgree(existing: Props, incoming: Props)
    requires forall name :: !BoolMeetsNumber(existing, incoming, name)
    requires (ArrowText(existing, STATUS) != SqlNull && ArrowText(incoming, STATUS) != SqlNull)
             || (forall name :: PyConflict(existing, incoming, name) ==> name !in COMPLETION)
    ensures Accepts(existing, incoming) <==> SqlAccepts(existing, incoming)
  {
    SqlIsLooserExactly(existing, incoming);
    SqlIsStricterExactly(existing, incoming);
  }

  /** Without a status on the stored side, SQL overwrites a price that Python refuses to. */
  lemma MissingStatusDiverges()
    ensures var existing: Props := map["broker_price_cents" := Num(1.0)];
            var incoming: Props := map["broker_price_cents" := Num(2.0)];
            SqlAccepts(existing, incoming) && !Accepts(existing, incoming)
  {
    var existing: Props := map["broker_price_cents" := Num(1.0)];
    var incoming: Props := map["broker_price_cents" := Num(2.0)];
    assert STATUS !in existing by { assert |STATUS| != |"broker_price_cents"|; }
    assert Refused(existing, incoming, "broker_price_cents");
  }

  /** Python takes True over a stored 1; jsonb does not. */
  lemma TrueOverOneDiverges()
    ensures var existing: Props := map["n" := Num(1.0)];
            var incoming: Props := map["n" := Bool(true)];
            Accepts(existing, incoming) && !SqlAccepts(existing, incoming)
  {
    var existing: Props := map["n" := Num(1.0)];
    var incoming: Props := map["n" := Bool(true)];
    assert "n" !in COMPLETION by { assert forall c :: c in COMPLETION ==> |c| > 1; }
    assert SqlConflict(existing, incoming, "n") == True;
  }
}
