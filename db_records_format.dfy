/** Rendering of database records, dicts, iterables and primitives as chat
    text (app/utils/db_records_format.py, format_for_chat). */
module RecordFormat {
  import opened Errors
  import TextFormat

  /** A Python value held by a record attribute, a dict or a primitive. Only
      None is told apart: every other value is printed through `repr` or
      `str`, which the caller supplies. */
  datatype Value = PyNone | PyInt(i: int) | PyStr(s: string) | PyOther(token: nat)

  /** repr() and str(); both are left to the caller. */
  datatype Show = Show(repr: Value -> string, str: Value -> string)

  /** What format_for_chat can be given. */
  datatype Obj =
    | Iterable(items: seq<Obj>)          // any iterable except str, bytes and dict
    | Dict(entries: seq<(string, Value)>) // keys as their str() text, in insertion order
    | Record(rec: Rec)                   // an instance of a declarative model
    | Primitive(value: Value)            // anything else, str and bytes included

  /** A model instance as the mapper sees it: the column keys in declaration
      order, the attribute values, and the relationships by name. */
  datatype Rec = Rec(columns: seq<string>, attrs: map<string, Value>, relationships: seq<(string, Related)>)

  /** The value of a relationship attribute: None, or a related record (or
      a collection of them, which is an iterable). */
  datatype Related = RelNone | RelValue(obj: Obj)

  /** An element of model_fields. */
  datatype FieldSpec =
    | AttrField(key: string)                                // an InstrumentedAttribute, named by .key
    | ColumnField(name: string)                             // a Column, named by .name
    | NameField(name: string)                               // a str
    | NestedField(relation: string, subfields: seq<FieldSpec>) // a pair (relation, sub-fields)
    | WrongArityTuple(arity: nat)                           // a tuple whose length is not 2
    | Unsupported                                           // any other object
  {
    predicate IsFlat() { AttrField? || ColumnField? || NameField? }

    function FlatName(): string
      requires IsFlat()
    {
      match this
      case AttrField(k) => k
      case ColumnField(n) => n
      case NameField(n) => n
    }

    predicate IsSupported() { IsFlat() || NestedField? }
  }

  /** The flat and nested fields collected from model_fields. The nested
      fields are a dict: relation name to sub-fields, in insertion order. */
  datatype Selection = Selection(flat: seq<string>, nested: seq<(string, seq<FieldSpec>)>)

  // ---------------------------------------------------------------------
  // Small sequence helpers
  // ---------------------------------------------------------------------

  function Keys<V>(d: seq<(string, V)>): (ks: seq<string>)
    ensures |ks| == |d|
    ensures forall i :: 0 <= i < |d| ==> ks[i] == d[i].0
  {
    if d == [] then [] else Keys(d[..|d| - 1]) + [d[|d| - 1].0]
  }

  /** d[key] = value on a Python dict: an existing key keeps its place and
      takes the new value, a new key goes last. */
  function DictPut<V>(d: seq<(string, V)>, key: string, value: V): (r: seq<(string, V)>)
    ensures key in Keys(d) ==> |r| == |d|
    ensures key !in Keys(d) ==> r == d + [(key, value)]
    ensures forall i :: 0 <= i < |d| ==> r[i] == (if d[i].0 == key then (key, value) else d[i])
  {
    if key in Keys(d) then seq(|d|, i requires 0 <= i < |d| => if d[i].0 == key then (key, value) else d[i])
    else d + [(key, value)]
  }

  predicate NoDuplicates(s: seq<string>)
  {
    forall i, j :: 0 <= i < j < |s| ==> s[i] != s[j]
  }

  /** Position of the first occurrence of `x` in `s`. */
  function FirstIndex(s: seq<string>, x: string): (k: nat)
    requires x in s
    ensures k < |s| && s[k] == x && x !in s[..k]
  {
    if s[0] == x then 0
    else
      var k := 1 + FirstIndex(s[1..], x);
      assert s[..k] == [s[0]] + s[1..][..k - 1];
      k
  }

  function EndsWithId(f: string): bool
  {
    |f| >= 3 && f[|f| - 3..] == "_id"
  }

  /** A flat field `X_id` is hidden when a nested relation `X` is requested. */
  predicate Hidden(f: string, nestedKeys: seq<string>)
  {
    EndsWithId(f) && f[..|f| - 3] in nestedKeys
  }

  // ---------------------------------------------------------------------
  // The specification of format_for_chat
  // ---------------------------------------------------------------------

  /** The first loop over model_fields, on its first `n` elements: flat
      names are collected once each, in order; a pair sets its relation in
      the nested dict; anything else raises ValueError. */
  function SelectFields(specs: seq<FieldSpec>, n: nat): Result<Selection>
    requires n <= |specs|
  {
    if n == 0 then Ok(Selection([], []))
    else
      match SelectFields(specs, n - 1)
      case Err(e) => Err(e)
      case Ok(sel) =>
        var spec := specs[n - 1];
        if spec.NestedField? then Ok(sel.(nested := DictPut(sel.nested, spec.relation, spec.subfields)))
        else if spec.IsFlat() then
          Ok(if spec.FlatName() in sel.flat then sel else sel.(flat := sel.flat + [spec.FlatName()]))
        else Err(ValueError)
  }

  /** Once the loop over model_fields has raised, the whole call has. */
  lemma {:induction false} SelectFieldsErrPersists(specs: seq<FieldSpec>, n: nat, m: nat)
    requires n <= m <= |specs|
    requires SelectFields(specs, n).Err?
    ensures SelectFields(specs, m) == SelectFields(specs, n)
    decreases m - n
  {
    if n < m {
      SelectFieldsErrPersists(specs, n, m - 1);
    }
  }

  /** One more pass of the loop over model_fields: an earlier error is
      kept, an unsupported spec raises, a supported one succeeds. */
  lemma SelectFieldsOutcome(specs: seq<FieldSpec>, n: nat)
    requires 0 < n <= |specs|
    ensures SelectFields(specs, n - 1).Err? ==> SelectFields(specs, n) == SelectFields(specs, n - 1)
    ensures SelectFields(specs, n - 1).Ok? && !specs[n - 1].IsSupported() ==> SelectFields(specs, n) == Err(ValueError)
    ensures SelectFields(specs, n - 1).Ok? && specs[n - 1].IsSupported() ==> SelectFields(specs, n).Ok?
  {
  }

  /** One more pass of the loop over model_fields, when it succeeds. */
  lemma SelectFieldsStep(specs: seq<FieldSpec>, n: nat)
    requires 0 < n <= |specs| && SelectFields(specs, n).Ok?
    ensures SelectFields(specs, n - 1).Ok? && specs[n - 1].IsSupported()
    ensures var sel := SelectFields(specs, n - 1).value;
            var spec := specs[n - 1];
            SelectFields(specs, n).value
            == if spec.NestedField? then sel.(nested := DictPut(sel.nested, spec.relation, spec.subfields))
               else if spec.FlatName() in sel.flat then sel
               else sel.(flat := sel.flat + [spec.FlatName()])
  {
  }

  /** getattr(obj, field, None). */
  function GetAttr(rec: Rec, field: string): Value
  {
    if field in rec.attrs then rec.attrs[field] else PyNone
  }

  /** The flat fields that are printed: all but the hidden `X_id` ones. */
  function Emitted(flat: seq<string>, nestedKeys: seq<string>): seq<string>
  {
    if flat == [] then []
    else
      var last := flat[|flat| - 1];
      Emitted(flat[..|flat| - 1], nestedKeys) + (if Hidden(last, nestedKeys) then [] else [last])
  }

  /** `field=repr(value)` for each printed flat field. */
  function FlatParts(rec: Rec, fields: seq<string>, show: Show): (ps: seq<string>)
    ensures |ps| == |fields|
    ensures forall i :: 0 <= i < |fields| ==> ps[i] == fields[i] + "=" + show.repr(GetAttr(rec, fields[i]))
  {
    if fields == [] then []
    else
      var f := fields[|fields| - 1];
      FlatParts(rec, fields[..|fields| - 1], show) + [f + "=" + show.repr(GetAttr(rec, f))]
  }

  /** Index of the relationship called `name`, when the mapper has one. */
  function RelIndex(rels: seq<(string, Related)>, name: string): (r: Option<nat>)
    ensures r.Some? ==> r.value < |rels| && rels[r.value].0 == name
    ensures r.None? <==> name !in Keys(rels)
  {
    if rels == [] then None
    else if rels[0].0 == name then Some(0)
    else
      match RelIndex(rels[1..], name)
      case None => (assert Keys(rels) == [rels[0].0] + Keys(rels[1..]); None)
      case Some(k) => Some(k + 1)
  }

  /** format_for_chat(obj, model_fields=fields, ...). */
  function Format(obj: Obj, fields: seq<FieldSpec>, fieldSep: string, recordSep: string, show: Show): Result<string>
    decreases obj, 2
  {
    match obj
    case Iterable(items) =>
      (match IterParts(obj, fields, fieldSep, recordSep, show, |items|)
       case Err(e) => Err(e)
       case Ok(ps) => Ok(TextFormat.Join(recordSep, ps)))
    case Dict(es) =>
      Ok("{ " + TextFormat.Join(fieldSep, DictParts(es, show)) + " }")
    case Record(rec) =>
      (match SelectFields(fields, |fields|)
       case Err(e) => Err(e)
       case Ok(sel) =>
         var flat := if sel.flat == [] && sel.nested == [] then rec.columns else sel.flat;
         var fp := FlatParts(rec, Emitted(flat, Keys(sel.nested)), show);
         match NestedParts(obj, sel.nested, fieldSep, recordSep, show, |sel.nested|)
         case Err(e) => Err(e)
         case Ok(np) => Ok("{ " + TextFormat.Join(fieldSep, fp + np) + " }"))
    case Primitive(v) => Ok(show.str(v))
  }

  /** The formatted first `n` items of an iterable. */
  function IterParts(obj: Obj, fields: seq<FieldSpec>, fieldSep: string, recordSep: string, show: Show, n: nat)
    : Result<seq<string>>
    requires obj.Iterable? && n <= |obj.items|
    decreases obj, 1, n
  {
    if n == 0 then Ok([])
    else
      match IterParts(obj, fields, fieldSep, recordSep, show, n - 1)
      case Err(e) => Err(e)
      case Ok(ps) =>
        match Format(obj.items[n - 1], fields, fieldSep, recordSep, show)
        case Err(e) => Err(e)
        case Ok(s) => Ok(ps + [s])
  }

  /** `k=repr(v)` for each dict entry. */
  function DictParts(es: seq<(string, Value)>, show: Show): (ps: seq<string>)
    ensures |ps| == |es|
    ensures forall i :: 0 <= i < |es| ==> ps[i] == es[i].0 + "=" + show.repr(es[i].1)
  {
    if es == [] then []
    else DictParts(es[..|es| - 1], show) + [es[|es| - 1].0 + "=" + show.repr(es[|es| - 1].1)]
  }

  /** One nested relation of a record: `<no relation>` when the mapper has
      no relationship of that name, `None` when it is unset, the related
      object formatted with the sub-fields otherwise. */
  function NestedPart(obj: Obj, name: string, subfields: seq<FieldSpec>, fieldSep: string, recordSep: string,
                      show: Show): Result<string>
    requires obj.Record?
    decreases obj, 0
  {
    var rels := obj.rec.relationships;
    match RelIndex(rels, name)
    case None => Ok(name + "=<no relation>")
    case Some(j) =>
      match rels[j].1
      case RelNone => Ok(name + "=None")
      case RelValue(related) =>
        (match Format(related, subfields, fieldSep, recordSep, show)
         case Err(e) => Err(e)
         case Ok(s) => Ok(name + "=" + s))
  }

  /** The rendered first `n` nested relations of a record. */
  function NestedParts(obj: Obj, nested: seq<(string, seq<FieldSpec>)>, fieldSep: string, recordSep: string,
                       show: Show, n: nat): Result<seq<string>>
    requires obj.Record? && n <= |nested|
    decreases obj, 1, n
  {
    if n == 0 then Ok([])
    else
      match NestedParts(obj, nested, fieldSep, recordSep, show, n - 1)
      case Err(e) => Err(e)
      case Ok(ps) =>
        match NestedPart(obj, nested[n - 1].0, nested[n - 1].1, fieldSep, recordSep, show)
        case Err(e) => Err(e)
        case Ok(p) => Ok(ps + [p])
  }

  /** Once an item has raised, the iteration has. */
  lemma {:induction false} IterPartsErrPersists(obj: Obj, fields: seq<FieldSpec>, fieldSep: string, recordSep: string,
                                                show: Show, n: nat, m: nat)
    requires obj.Iterable? && n <= m <= |obj.items|
    requires IterParts(obj, fields, fieldSep, recordSep, show, n).Err?
    ensures IterParts(obj, fields, fieldSep, recordSep, show, m) == IterParts(obj, fields, fieldSep, recordSep, show, n)
    decreases m - n
  {
    if n < m {
      IterPartsErrPersists(obj, fields, fieldSep, recordSep, show, n, m - 1);
    }
  }

  /** Once a nested relation has raised, the record has. */
  lemma {:induction false} NestedPartsErrPersists(obj: Obj, nested: seq<(string, seq<FieldSpec>)>, fieldSep: string,
                                                  recordSep: string, show: Show, n: nat, m: nat)
    requires obj.Record? && n <= m <= |nested|
    requires NestedParts(obj, nested, fieldSep, recordSep, show, n).Err?
    ensures NestedParts(obj, nested, fieldSep, recordSep, show, m) == NestedParts(obj, nested, fieldSep, recordSep, show, n)
    decreases m - n
  {
    if n < m {
      NestedPartsErrPersists(obj, nested, fieldSep, recordSep, show, n, m - 1);
    }
  }

  // ---------------------------------------------------------------------
  // format_for_chat as the source writes it
  // ---------------------------------------------------------------------

  /** format_for_chat: dispatch on the kind of object. An iterable is
      formatted item by item and joined with the record separator, a dict
      prints its entries, a primitive its str(). */
  method FormatForChat(obj: Obj, modelFields: seq<FieldSpec>, fieldSep: string, recordSep: string, show: Show)
    returns (r: Result<string>)
    ensures r == Format(obj, modelFields, fieldSep, recordSep, show)
    decreases obj, 2
  {
    match obj {
      case Iterable(items) =>
        var formatted: seq<string> := [];
        for i := 0 to |items|
          invariant IterParts(obj, modelFields, fieldSep, recordSep, show, i) == Ok(formatted)
        {
          var item := FormatForChat(items[i], modelFields, fieldSep, recordSep, show);
          if item.Err? {
            IterPartsErrPersists(obj, modelFields, fieldSep, recordSep, show, i + 1, |items|);
            return Err(item.error);
          }
          formatted := formatted + [item.value];
        }
        return Ok(TextFormat.Join(recordSep, formatted));
      case Dict(es) =>
        var itemStrs: seq<string> := [];
        for i := 0 to |es|
          invariant itemStrs == DictParts(es[..i], show)
        {
          itemStrs := itemStrs + [es[i].0 + "=" + show.repr(es[i].1)];
          assert es[..i + 1][..i] == es[..i];
        }
        assert es[..|es|] == es;
        return Ok("{ " + TextFormat.Join(fieldSep, itemStrs) + " }");
      case Record(_) =>
        r := FormatRecord(obj, modelFields, fieldSep, recordSep, show);
      case Primitive(v) =>
        return Ok(show.str(v));
    }
  }

  /** The loop over model_fields: a pair goes into the nested dict, an
      attribute, column or name into the flat list unless already there,
      anything else raises ValueError. */
  method CollectFields(modelFields: seq<FieldSpec>) returns (r: Result<Selection>)
    ensures r == SelectFields(modelFields, |modelFields|)
  {
    var flat: seq<string> := [];
    var nested: seq<(string, seq<FieldSpec>)> := [];
    for i := 0 to |modelFields|
      invariant SelectFields(modelFields, i) == Ok(Selection(flat, nested))
    {
      var mf := modelFields[i];
      if mf.NestedField? {
        nested := DictPut(nested, mf.relation, mf.subfields);
      } else if mf.IsFlat() {
        var name := mf.FlatName();
        if name !in flat {
          flat := flat + [name];
        }
      } else {
        SelectFieldsErrPersists(modelFields, i + 1, |modelFields|);
        return Err(ValueError);
      }
    }
    return Ok(Selection(flat, nested));
  }

  /** The loop over the flat fields: `field=repr(value)` for each, except
      `X_id` when `X` is a nested relation. */
  method RenderFlatFields(rec: Rec, flat: seq<string>, nestedKeys: seq<string>, show: Show) returns (parts: seq<string>)
    ensures parts == FlatParts(rec, Emitted(flat, nestedKeys), show)
  {
    parts := [];
    for i := 0 to |flat|
      invariant parts == FlatParts(rec, Emitted(flat[..i], nestedKeys), show)
    {
      var field := flat[i];
      assert flat[..i + 1][..i] == flat[..i];
      if EndsWithId(field) && field[..|field| - 3] in nestedKeys {
        continue;
      }
      parts := parts + [field + "=" + show.repr(GetAttr(rec, field))];
    }
    assert flat[..|flat|] == flat;
  }

  /** One pass of the loop over the nested fields. */
  method RenderNested(obj: Obj, name: string, subfields: seq<FieldSpec>, fieldSep: string, recordSep: string,
                      show: Show) returns (r: Result<string>)
    requires obj.Record?
    ensures r == NestedPart(obj, name, subfields, fieldSep, recordSep, show)
    decreases obj, 0, 0
  {
    var rec := obj.rec;
    var idx := RelIndex(rec.relationships, name);
    if idx.None? {
      return Ok(name + "=<no relation>");
    }
    var related := rec.relationships[idx.value].1;
    if related.RelNone? {
      return Ok(name + "=None");
    }
    var sub := FormatForChat(related.obj, subfields, fieldSep, recordSep, show);
    if sub.Err? {
      return Err(sub.error);
    }
    return Ok(name + "=" + sub.value);
  }

  /** The loop over the nested fields, in the order of the nested dict. */
  method RenderNestedFields(obj: Obj, nested: seq<(string, seq<FieldSpec>)>, fieldSep: string, recordSep: string,
                            show: Show) returns (r: Result<seq<string>>)
    requires obj.Record?
    ensures r == NestedParts(obj, nested, fieldSep, recordSep, show, |nested|)
    decreases obj, 0, 1
  {
    var parts: seq<string> := [];
    for i := 0 to |nested|
      invariant NestedParts(obj, nested, fieldSep, recordSep, show, i) == Ok(parts)
    {
      var part := RenderNested(obj, nested[i].0, nested[i].1, fieldSep, recordSep, show);
      if part.Err? {
        NestedPartsErrPersists(obj, nested, fieldSep, recordSep, show, i + 1, |nested|);
        return Err(part.error);
      }
      parts := parts + [part.value];
    }
    return Ok(parts);
  }

  /** The record branch of format_for_chat: fall back to all columns when
      no field was asked for, print the flat fields (skipping `X_id` when
      `X` is nested), then each nested relation, recursing into it. */
  method FormatRecord(obj: Obj, modelFields: seq<FieldSpec>, fieldSep: string, recordSep: string, show: Show)
    returns (r: Result<string>)
    requires obj.Record?
    ensures r == Format(obj, modelFields, fieldSep, recordSep, show)
    decreases obj, 1
  {
    var rec := obj.rec;
    var sel := CollectFields(modelFields);
    if sel.Err? {
      return Err(sel.error);
    }
    var flat := sel.value.flat;
    var nested := sel.value.nested;
    if flat == [] && nested == [] {
      flat := rec.columns;
    }
    var flatParts := RenderFlatFields(rec, flat, Keys(nested), show);
    var nestedParts := RenderNestedFields(obj, nested, fieldSep, recordSep, show);
    if nestedParts.Err? {
      return Err(nestedParts.error);
    }
    return Ok("{ " + TextFormat.Join(fieldSep, flatParts + nestedParts.value) + " }");
  }

  // ---------------------------------------------------------------------
  // Field selection
  // ---------------------------------------------------------------------

  /** The flat names of the first `n` field specs, duplicates included. */
  function FlatNames(specs: seq<FieldSpec>, n: nat): seq<string>
    requires n <= |specs|
  {
    if n == 0 then []
    else FlatNames(specs, n - 1) + (if specs[n - 1].IsFlat() then [specs[n - 1].FlatName()] else [])
  }

  /** The sub-fields the last pair for relation `name` among the first `n`
      field specs asks for. */
  function LastNested(specs: seq<FieldSpec>, n: nat, name: string): Option<seq<FieldSpec>>
    requires n <= |specs|
  {
    if n == 0 then None
    else if specs[n - 1].NestedField? && specs[n - 1].relation == name then Some(specs[n - 1].subfields)
    else LastNested(specs, n - 1, name)
  }

  lemma FirstIndexUnique(s: seq<string>, x: string, k: nat)
    requires k < |s| && s[k] == x && x !in s[..k]
    ensures FirstIndex(s, x) == k
  {
  }

  lemma FirstIndexAppend(s: seq<string>, t: seq<string>, x: string)
    requires x in s
    ensures FirstIndex(s + t, x) == FirstIndex(s, x)
  {
    var k := FirstIndex(s, x);
    assert (s + t)[..k] == s[..k];
    FirstIndexUnique(s + t, x, k);
  }

  /** Model fields raise ValueError exactly when one of them is neither a
      pair nor an attribute, column or name. */
  lemma {:induction false} SelectFieldsFails(specs: seq<FieldSpec>, n: nat)
    requires n <= |specs|
    ensures SelectFields(specs, n).Err? <==> exists i :: 0 <= i < n && !specs[i].IsSupported()
    ensures SelectFields(specs, n).Err? ==> SelectFields(specs, n).error == ValueError
  {
    if n > 0 {
      SelectFieldsFails(specs, n - 1);
      SelectFieldsOutcome(specs, n);
      if SelectFields(specs, n - 1).Err? {
        var i :| 0 <= i < n - 1 && !specs[i].IsSupported();
        assert 0 <= i < n && !specs[i].IsSupported();
      } else if !specs[n - 1].IsSupported() {
        assert 0 <= n - 1 < n && !specs[n - 1].IsSupported();
      } else {
        forall i | 0 <= i < n
          ensures specs[i].IsSupported()
        {
          if i < n - 1 {
            assert !(0 <= i < n - 1 && !specs[i].IsSupported());
          }
        }
      }
    }
  }

  /** The flat fields are the requested names without duplicates, in the
      order of their first occurrence. */
  lemma {:induction false} SelectedFlatFields(specs: seq<FieldSpec>, n: nat)
    requires n <= |specs| && SelectFields(specs, n).Ok?
    ensures NoDuplicates(SelectFields(specs, n).value.flat)
    ensures forall x :: x in SelectFields(specs, n).value.flat <==> x in FlatNames(specs, n)
    ensures forall i, j :: 0 <= i < j < |SelectFields(specs, n).value.flat| ==>
              FirstIndex(FlatNames(specs, n), SelectFields(specs, n).value.flat[i])
              < FirstIndex(FlatNames(specs, n), SelectFields(specs, n).value.flat[j])
  {
    if n > 0 {
      SelectFieldsStep(specs, n);
      SelectedFlatFields(specs, n - 1);
      var flat := SelectFields(specs, n - 1).value.flat;
      var names := FlatNames(specs, n - 1);
      var spec := specs[n - 1];
      if spec.IsFlat() {
        assert FlatNames(specs, n) == names + [spec.FlatName()];
        assert SelectFields(specs, n).value.flat == if spec.FlatName() in flat then flat else flat + [spec.FlatName()];
        FlatStep(flat, names, spec.FlatName());
      } else {
        assert FlatNames(specs, n) == names;
        assert SelectFields(specs, n).value.flat == flat;
      }
    }
  }

  /** Adding a flat name to the selection keeps the three properties above. */
  lemma FlatStep(flat: seq<string>, names: seq<string>, x: string)
    requires NoDuplicates(flat)
    requires forall y :: y in flat <==> y in names
    requires forall i, j :: 0 <= i < j < |flat| ==> FirstIndex(names, flat[i]) < FirstIndex(names, flat[j])
    ensures var flat' := if x in flat then flat else flat + [x];
            NoDuplicates(flat')
            && (forall y :: y in flat' <==> y in names + [x])
            && forall i, j :: 0 <= i < j < |flat'| ==> FirstIndex(names + [x], flat'[i]) < FirstIndex(names + [x], flat'[j])
  {
    var names' := names + [x];
    forall y | y in names
      ensures FirstIndex(names', y) == FirstIndex(names, y)
    {
      FirstIndexAppend(names, [x], y);
    }
    if x !in flat {
      FlatStepNew(flat, names, x);
    }
  }

  lemma FlatStepNew(flat: seq<string>, names: seq<string>, x: string)
    requires forall y :: y in flat <==> y in names
    requires x !in flat
    requires forall i, j :: 0 <= i < j < |flat| ==> FirstIndex(names, flat[i]) < FirstIndex(names, flat[j])
    requires forall y :: y in names ==> FirstIndex(names + [x], y) == FirstIndex(names, y)
    ensures forall i, j :: 0 <= i < j < |flat + [x]| ==>
              FirstIndex(names + [x], (flat + [x])[i]) < FirstIndex(names + [x], (flat + [x])[j])
  {
    var names' := names + [x];
    assert names'[..|names|] == names;
    FirstIndexUnique(names', x, |names|);
    forall i, j | 0 <= i < j < |flat + [x]|
      ensures FirstIndex(names', (flat + [x])[i]) < FirstIndex(names', (flat + [x])[j])
    {
      assert (flat + [x])[i] == flat[i];
      if j < |flat| {
        assert (flat + [x])[j] == flat[j];
      } else {
        assert (flat + [x])[j] == x;
        assert flat[i] in names;
      }
    }
  }

  /** `d[key] = value` keeps the keys distinct, adds `key` to them, gives
      `key` the new value and leaves every other entry where it was. */
  lemma DictPutStep<V>(d: seq<(string, V)>, key: string, value: V)
    requires NoDuplicates(Keys(d))
    ensures var r := DictPut(d, key, value);
            NoDuplicates(Keys(r))
            && (forall x :: x in Keys(r) <==> x in Keys(d) || x == key)
            && (forall k :: 0 <= k < |r| && r[k].0 == key ==> r[k].1 == value)
            && (forall k :: 0 <= k < |r| && r[k].0 != key ==> k < |d| && r[k] == d[k])
  {
    var r := DictPut(d, key, value);
    if key in Keys(d) {
      assert Keys(r) == Keys(d);
    } else {
      assert Keys(r) == Keys(d) + [key];
    }
  }

  /** The nested dict has one entry per requested relation, and each holds
      the sub-fields of the last pair naming it. */
  lemma {:induction false} SelectedNestedFields(specs: seq<FieldSpec>, n: nat)
    requires n <= |specs| && SelectFields(specs, n).Ok?
    ensures NoDuplicates(Keys(SelectFields(specs, n).value.nested))
    ensures forall x :: x in Keys(SelectFields(specs, n).value.nested) <==> LastNested(specs, n, x).Some?
    ensures forall k :: 0 <= k < |SelectFields(specs, n).value.nested| ==>
              LastNested(specs, n, SelectFields(specs, n).value.nested[k].0)
              == Some(SelectFields(specs, n).value.nested[k].1)
  {
    if n > 0 {
      SelectFieldsStep(specs, n);
      SelectedNestedFields(specs, n - 1);
      var nested := SelectFields(specs, n - 1).value.nested;
      var spec := specs[n - 1];
      if spec.NestedField? {
        var r := DictPut(nested, spec.relation, spec.subfields);
        assert SelectFields(specs, n).value.nested == r;
        DictPutStep(nested, spec.relation, spec.subfields);
        forall x
          ensures LastNested(specs, n, x) == if x == spec.relation then Some(spec.subfields) else LastNested(specs, n - 1, x)
        {
        }
        forall k | 0 <= k < |r|
          ensures LastNested(specs, n, r[k].0) == Some(r[k].1)
        {
          if r[k].0 != spec.relation {
            assert r[k] == nested[k];
          }
        }
      } else {
        assert SelectFields(specs, n).value.nested == nested;
        forall x
          ensures LastNested(specs, n, x) == LastNested(specs, n - 1, x)
        {
        }
      }
    }
  }

  /** One step of Emitted: the last flat field is printed unless hidden. */
  lemma EmittedStep(flat: seq<string>, nestedKeys: seq<string>)
    requires flat != []
    ensures Emitted(flat, nestedKeys)
            == Emitted(flat[..|flat| - 1], nestedKeys)
               + (if Hidden(flat[|flat| - 1], nestedKeys) then [] else [flat[|flat| - 1]])
  {
  }

  /** A flat field is printed exactly when it is selected and is not an
      `X_id` whose relation `X` is nested. */
  lemma {:induction false} EmittedFields(flat: seq<string>, nestedKeys: seq<string>)
    ensures forall x :: x in Emitted(flat, nestedKeys) <==> x in flat && !Hidden(x, nestedKeys)
  {
    if flat != [] {
      var init := flat[..|flat| - 1];
      var last := flat[|flat| - 1];
      EmittedFields(init, nestedKeys);
      EmittedStep(flat, nestedKeys);
      assert flat == init + [last];
      forall x
        ensures x in Emitted(flat, nestedKeys) <==> x in flat && !Hidden(x, nestedKeys)
      {
        assert x in flat <==> x in init || x == last;
      }
    }
  }

  /** Printing keeps the selected fields distinct. */
  lemma {:induction false} EmittedDistinct(flat: seq<string>, nestedKeys: seq<string>)
    requires NoDuplicates(flat)
    ensures NoDuplicates(Emitted(flat, nestedKeys))
  {
    if flat != [] {
      var init := flat[..|flat| - 1];
      var last := flat[|flat| - 1];
      assert NoDuplicates(init);
      EmittedDistinct(init, nestedKeys);
      EmittedFields(init, nestedKeys);
      EmittedStep(flat, nestedKeys);
      assert last !in init;
      var e := Emitted(init, nestedKeys);
      assert last !in e;
      if !Hidden(last, nestedKeys) {
        forall i, j | 0 <= i < j < |e + [last]|
          ensures (e + [last])[i] != (e + [last])[j]
        {
          if j == |e| {
            assert (e + [last])[i] == e[i];
          }
        }
      }
    }
  }

  /** Nothing is dropped when nothing is nested. */
  lemma {:induction false} EmittedAllWithoutNested(flat: seq<string>)
    ensures Emitted(flat, []) == flat
  {
    if flat != [] {
      EmittedAllWithoutNested(flat[..|flat| - 1]);
      EmittedStep(flat, []);
      assert flat == flat[..|flat| - 1] + [flat[|flat| - 1]];
    }
  }

  /** Reference definition of the printed flat fields, read from the
      front: the selected fields in their order, the hidden ones skipped. */
  function Visible(flat: seq<string>, nestedKeys: seq<string>): seq<string>
  {
    if flat == [] then []
    else (if Hidden(flat[0], nestedKeys) then [] else [flat[0]]) + Visible(flat[1..], nestedKeys)
  }

  /** Printing a concatenation prints each piece in turn. */
  lemma {:induction false} EmittedAppend(a: seq<string>, b: seq<string>, nestedKeys: seq<string>)
    ensures Emitted(a + b, nestedKeys) == Emitted(a, nestedKeys) + Emitted(b, nestedKeys)
    decreases |b|
  {
    if b == [] {
      assert a + b == a;
    } else {
      var init := b[..|b| - 1];
      assert (a + b)[..|a + b| - 1] == a + init;
      assert (a + b)[|a + b| - 1] == b[|b| - 1];
      EmittedAppend(a, init, nestedKeys);
      EmittedStep(a + b, nestedKeys);
      EmittedStep(b, nestedKeys);
    }
  }

  /** The printed flat fields keep the order of the selection: they are
      exactly the selected fields with the hidden ones filtered out. */
  lemma {:induction false} EmittedInOrder(flat: seq<string>, nestedKeys: seq<string>)
    ensures Emitted(flat, nestedKeys) == Visible(flat, nestedKeys)
    decreases |flat|
  {
    if flat != [] {
      var head := [flat[0]];
      assert flat == head + flat[1..];
      EmittedAppend(head, flat[1..], nestedKeys);
      EmittedStep(head, nestedKeys);
      assert head[..0] == [];
      EmittedInOrder(flat[1..], nestedKeys);
    }
  }

  /** A record whose field selection and nested relations succeed prints
      its emitted flat fields followed by its nested parts. */
  lemma RecordFormatStep(rec: Rec, fields: seq<FieldSpec>, fieldSep: string, recordSep: string, show: Show,
                         sel: Selection, np: seq<string>)
    requires SelectFields(fields, |fields|) == Ok(sel)
    requires NestedParts(Record(rec), sel.nested, fieldSep, recordSep, show, |sel.nested|) == Ok(np)
    ensures var flat := if sel.flat == [] && sel.nested == [] then rec.columns else sel.flat;
            Format(Record(rec), fields, fieldSep, recordSep, show)
            == Ok("{ " + TextFormat.Join(fieldSep, FlatParts(rec, Emitted(flat, Keys(sel.nested)), show) + np) + " }")
  {
  }

  /** With no model fields, every column is printed, in declaration order. */
  lemma AllColumnsWhenNoFields(rec: Rec, fieldSep: string, recordSep: string, show: Show)
    ensures Format(Record(rec), [], fieldSep, recordSep, show)
            == Ok("{ " + TextFormat.Join(fieldSep, FlatParts(rec, rec.columns, show)) + " }")
  {
    var none: seq<(string, seq<FieldSpec>)> := [];
    assert Keys(none) == [];
    EmittedAllWithoutNested(rec.columns);
    RecordFormatStep(rec, [], fieldSep, recordSep, show, Selection([], none), []);
    var fp := FlatParts(rec, rec.columns, show);
    assert fp + [] == fp;
  }

  // ---------------------------------------------------------------------
  // Rendering
  // ---------------------------------------------------------------------

  /** An iterable formats without error exactly when each of its items
      does. */
  lemma {:induction false} IterPartsOk(obj: Obj, fields: seq<FieldSpec>, fieldSep: string, recordSep: string,
                                       show: Show, n: nat)
    requires obj.Iterable? && n <= |obj.items|
    ensures IterParts(obj, fields, fieldSep, recordSep, show, n).Ok?
            <==> forall i :: 0 <= i < n ==> Format(obj.items[i], fields, fieldSep, recordSep, show).Ok?
  {
    if n > 0 {
      IterPartsOk(obj, fields, fieldSep, recordSep, show, n - 1);
    }
  }

  /** The parts of an iterable are its items' formatting, one per item, in
      order; Format joins them with the record separator. */
  lemma {:induction false} IterPartsItems(obj: Obj, fields: seq<FieldSpec>, fieldSep: string, recordSep: string,
                                          show: Show, n: nat)
    requires obj.Iterable? && n <= |obj.items|
    requires IterParts(obj, fields, fieldSep, recordSep, show, n).Ok?
    ensures var ps := IterParts(obj, fields, fieldSep, recordSep, show, n).value;
            |ps| == n && forall i :: 0 <= i < n ==> Format(obj.items[i], fields, fieldSep, recordSep, show) == Ok(ps[i])
  {
    if n > 0 {
      IterPartsItems(obj, fields, fieldSep, recordSep, show, n - 1);
    }
  }

  /** The nested relations of a record render without error exactly when
      each of them does. */
  lemma NestedPartsOk(obj: Obj, nested: seq<(string, seq<FieldSpec>)>, fieldSep: string,
                      recordSep: string, show: Show, n: nat)
    requires obj.Record? && n <= |nested|
    ensures NestedParts(obj, nested, fieldSep, recordSep, show, n).Ok?
            <==> forall i :: 0 <= i < n ==> NestedPart(obj, nested[i].0, nested[i].1, fieldSep, recordSep, show).Ok?
  {
    NestedPartsAllOk(obj, nested, fieldSep, recordSep, show, n);
    if NestedParts(obj, nested, fieldSep, recordSep, show, n).Ok? {
      NestedPartsItems(obj, nested, fieldSep, recordSep, show, n);
    }
  }

  lemma {:induction false} NestedPartsAllOk(obj: Obj, nested: seq<(string, seq<FieldSpec>)>, fieldSep: string,
                                            recordSep: string, show: Show, n: nat)
    requires obj.Record? && n <= |nested|
    ensures (forall i :: 0 <= i < n ==> NestedPart(obj, nested[i].0, nested[i].1, fieldSep, recordSep, show).Ok?)
            ==> NestedParts(obj, nested, fieldSep, recordSep, show, n).Ok?
  {
    if n > 0 {
      NestedPartsAllOk(obj, nested, fieldSep, recordSep, show, n - 1);
      NestedPartsStep(obj, nested, fieldSep, recordSep, show, n);
    }
  }

  /** One more nested relation: the record renders so far exactly when
      the earlier ones and this one do. */
  lemma NestedPartsStep(obj: Obj, nested: seq<(string, seq<FieldSpec>)>, fieldSep: string,
                        recordSep: string, show: Show, n: nat)
    requires obj.Record? && 0 < n <= |nested|
    ensures NestedParts(obj, nested, fieldSep, recordSep, show, n).Ok?
            <==> NestedParts(obj, nested, fieldSep, recordSep, show, n - 1).Ok?
                 && NestedPart(obj, nested[n - 1].0, nested[n - 1].1, fieldSep, recordSep, show).Ok?
  {
  }

  /** The nested relations render one part each, in dict order. */
  lemma {:induction false} NestedPartsItems(obj: Obj, nested: seq<(string, seq<FieldSpec>)>, fieldSep: string,
                                            recordSep: string, show: Show, n: nat)
    requires obj.Record? && n <= |nested|
    requires NestedParts(obj, nested, fieldSep, recordSep, show, n).Ok?
    ensures var ps := NestedParts(obj, nested, fieldSep, recordSep, show, n).value;
            |ps| == n && forall i :: 0 <= i < n ==>
              NestedPart(obj, nested[i].0, nested[i].1, fieldSep, recordSep, show) == Ok(ps[i])
  {
    if n > 0 {
      NestedPartsItems(obj, nested, fieldSep, recordSep, show, n - 1);
    }
  }

  /** The three renderings of a nested relation, for a mapper whose
      relationship names are distinct. */
  lemma NestedPartCases(obj: Obj, name: string, subfields: seq<FieldSpec>, fieldSep: string, recordSep: string,
                        show: Show)
    requires obj.Record? && NoDuplicates(Keys(obj.rec.relationships))
    ensures name !in Keys(obj.rec.relationships) ==>
              NestedPart(obj, name, subfields, fieldSep, recordSep, show) == Ok(name + "=<no relation>")
    ensures forall j :: 0 <= j < |obj.rec.relationships| && obj.rec.relationships[j] == (name, RelNone) ==>
              NestedPart(obj, name, subfields, fieldSep, recordSep, show) == Ok(name + "=None")
    ensures forall j, o :: 0 <= j < |obj.rec.relationships| && obj.rec.relationships[j] == (name, RelValue(o)) ==>
              NestedPart(obj, name, subfields, fieldSep, recordSep, show)
              == (match Format(o, subfields, fieldSep, recordSep, show)
                  case Ok(s) => Ok(name + "=" + s)
                  case Err(e) => Err(e))
  {
    var rels := obj.rec.relationships;
    forall j | 0 <= j < |rels| && rels[j].0 == name
      ensures RelIndex(rels, name) == Some(j)
    {
      var k := RelIndex(rels, name).value;
      assert Keys(rels)[j] == Keys(rels)[k];
    }
  }

  /** Field specs that are all pairs, attributes, columns or names, down
      to every level of nesting. */
  predicate WellFormed(specs: seq<FieldSpec>)
  {
    forall i :: 0 <= i < |specs| ==>
      specs[i].IsSupported() && (specs[i].NestedField? ==> WellFormed(specs[i].subfields))
  }

  predicate NestedWellFormed(nested: seq<(string, seq<FieldSpec>)>)
  {
    forall k :: 0 <= k < |nested| ==> WellFormed(nested[k].1)
  }

  lemma {:induction false} SelectWellFormed(specs: seq<FieldSpec>, n: nat)
    requires n <= |specs| && WellFormed(specs)
    ensures SelectFields(specs, n).Ok? && NestedWellFormed(SelectFields(specs, n).value.nested)
  {
    if n > 0 {
      SelectWellFormed(specs, n - 1);
      var sel := SelectFields(specs, n - 1).value;
      var spec := specs[n - 1];
      assert spec.IsSupported();
      if spec.NestedField? {
        assert WellFormed(spec.subfields);
        var r := DictPut(sel.nested, spec.relation, spec.subfields);
        assert SelectFields(specs, n) == Ok(sel.(nested := r));
        forall k | 0 <= k < |r|
          ensures WellFormed(r[k].1)
        {
          if k < |sel.nested| && sel.nested[k].0 != spec.relation {
            assert r[k] == sel.nested[k];
          }
        }
      } else {
        assert SelectFields(specs, n).value.nested == sel.nested;
      }
    }
  }

  /** Well-formed field specs never make format_for_chat raise, whatever
      the object. */
  lemma {:induction false} FormatNeverFails(obj: Obj, fields: seq<FieldSpec>, fieldSep: string, recordSep: string,
                                            show: Show)
    requires WellFormed(fields)
    ensures Format(obj, fields, fieldSep, recordSep, show).Ok?
    decreases obj, 2
  {
    match obj
    case Iterable(items) =>
      IterPartsNeverFail(obj, fields, fieldSep, recordSep, show, |items|);
    case Dict(_) =>
    case Record(_) =>
      SelectWellFormed(fields, |fields|);
      var nested := SelectFields(fields, |fields|).value.nested;
      NestedPartsNeverFail(obj, nested, fieldSep, recordSep, show, |nested|);
    case Primitive(_) =>
  }

  lemma {:induction false} IterPartsNeverFail(obj: Obj, fields: seq<FieldSpec>, fieldSep: string, recordSep: string,
                                              show: Show, n: nat)
    requires obj.Iterable? && n <= |obj.items| && WellFormed(fields)
    ensures IterParts(obj, fields, fieldSep, recordSep, show, n).Ok?
    decreases obj, 1, n
  {
    if n > 0 {
      IterPartsNeverFail(obj, fields, fieldSep, recordSep, show, n - 1);
      FormatNeverFails(obj.items[n - 1], fields, fieldSep, recordSep, show);
    }
  }

  lemma {:induction false} NestedPartsNeverFail(obj: Obj, nested: seq<(string, seq<FieldSpec>)>, fieldSep: string,
                                                recordSep: string, show: Show, n: nat)
    requires obj.Record? && n <= |nested| && NestedWellFormed(nested)
    ensures NestedParts(obj, nested, fieldSep, recordSep, show, n).Ok?
    decreases obj, 1, n
  {
    if n > 0 {
      NestedPartsNeverFail(obj, nested, fieldSep, recordSep, show, n - 1);
      var rels := obj.rec.relationships;
      match RelIndex(rels, nested[n - 1].0)
      case None =>
      case Some(j) =>
        match rels[j].1
        case RelNone =>
        case RelValue(related) =>
          FormatNeverFails(related, nested[n - 1].1, fieldSep, recordSep, show);
    }
  }

  /** A record given a field spec of an unsupported kind raises ValueError. */
  lemma RecordWithBadFieldFails(rec: Rec, fields: seq<FieldSpec>, fieldSep: string, recordSep: string, show: Show,
                                i: nat)
    requires i < |fields| && !fields[i].IsSupported()
    ensures Format(Record(rec), fields, fieldSep, recordSep, show) == Err(ValueError)
  {
    SelectFieldsFails(fields, |fields|);
  }

  // ---------------------------------------------------------------------
  // The per-model field lists
  // ---------------------------------------------------------------------

  const ChatTypeFields: seq<FieldSpec> := [AttrField("id"), AttrField("type")]
  const ChatFields: seq<FieldSpec> :=
    [AttrField("id"), AttrField("email"), NestedField("chat_type_model", [AttrField("type")])]
  const UserFields: seq<FieldSpec> :=
    [AttrField("id"), NestedField("chat", [AttrField("email")]), AttrField("first_name"), AttrField("last_name")]
  const GroupFields: seq<FieldSpec> :=
    [AttrField("id"), NestedField("chat", [AttrField("email")]), AttrField("title")]
  /** The administrator entry: its second element is a 3-tuple. */
  const AdministratorFields: seq<FieldSpec> :=
    [AttrField("user_id"), WrongArityTuple(3), AttrField("granted_by"), AttrField("granted_at")]
  const NotificationTypeFields: seq<FieldSpec> :=
    [AttrField("id"), AttrField("type"), AttrField("description")]
  const NotificationSubscriberFields: seq<FieldSpec> :=
    [AttrField("id"), NestedField("chat", [AttrField("email")]),
     NestedField("notification_type_model", [AttrField("type")])]

  /** The configured field lists other than the administrator's hold
      only pairs and attributes. */
  lemma ModelFieldsWellFormed()
    ensures WellFormed(ChatTypeFields) && WellFormed(ChatFields) && WellFormed(UserFields)
    ensures WellFormed(GroupFields) && WellFormed(NotificationTypeFields) && WellFormed(NotificationSubscriberFields)
  {
    assert WellFormed([AttrField("type")]);
    assert WellFormed([AttrField("email")]);
  }

  /** Formatting any administrator record with its configured fields
      raises ValueError: the 3-tuple cannot be unpacked as a pair. */
  lemma AdministratorFormatFails(rec: Rec, fieldSep: string, recordSep: string, show: Show)
    ensures Format(Record(rec), AdministratorFields, fieldSep, recordSep, show) == Err(ValueError)
  {
    RecordWithBadFieldFails(rec, AdministratorFields, fieldSep, recordSep, show, 1);
  }

  /** Every other configured field list formats any object. */
  lemma OtherModelFormatsSucceed(obj: Obj, fieldSep: string, recordSep: string, show: Show)
    ensures Format(obj, ChatTypeFields, fieldSep, recordSep, show).Ok?
    ensures Format(obj, ChatFields, fieldSep, recordSep, show).Ok?
    ensures Format(obj, UserFields, fieldSep, recordSep, show).Ok?
    ensures Format(obj, GroupFields, fieldSep, recordSep, show).Ok?
    ensures Format(obj, NotificationTypeFields, fieldSep, recordSep, show).Ok?
    ensures Format(obj, NotificationSubscriberFields, fieldSep, recordSep, show).Ok?
  {
    ModelFieldsWellFormed();
    FormatNeverFails(obj, ChatTypeFields, fieldSep, recordSep, show);
    FormatNeverFails(obj, ChatFields, fieldSep, recordSep, show);
    FormatNeverFails(obj, UserFields, fieldSep, recordSep, show);
    FormatNeverFails(obj, GroupFields, fieldSep, recordSep, show);
    FormatNeverFails(obj, NotificationTypeFields, fieldSep, recordSep, show);
    FormatNeverFails(obj, NotificationSubscriberFields, fieldSep, recordSep, show);
  }
}
