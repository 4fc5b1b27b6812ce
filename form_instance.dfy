/**
 * The form instance hook (src/form/hooks/useInstance.tsx): a mediator over
 * the registered form items.
 *
 * `formItemsRef.current` is a sequence of optional items (`ref.current` may be
 * null). The hook never writes an item's fields itself: it calls the item's
 * mutators (`setValue`, `setField`, `resetField`, `resetValidate`,
 * `setValidateMessage`, `validate`), whose bodies are not part of this model.
 * Every operation therefore returns the ordered trace of the calls it makes,
 * each naming its target by the item's index.
 */
module FormInstance {
  import opened Wrappers
  import opened FormErrors

  /** What the hook reads of a registered item; `name == ""` stands for a falsy name. */
  datatype FormItem<V> = FormItem(name: string, value: V, hasValidate: bool)

  /** `formItemsRef.current`, one optional item per registered ref. */
  type Items<V> = seq<Option<FormItem<V>>>

  /** An argument as JavaScript may pass it: `undefined`, a boolean, an array, or anything else. */
  datatype Arg<T> = Undefined | Bool(b: bool) | Array(elems: seq<T>) | Other

  /** The `type` of `reset`. */
  datatype ResetType = Initial | Empty

  /** A call of one of an item's methods. */
  datatype ItemOp<V> =
    | Validate(trigger: string)
    | SetValue(value: V)
    | SetField(fieldValue: Option<V>, status: Option<string>)
    | ResetField(resetType: Option<ResetType>)
    | ResetValidate
    | SetValidateMessage(messages: seq<string>)

  /** `items[target].op(...)`. */
  datatype ItemCall<V> = ItemCall(target: nat, op: ItemOp<V>)

  // ---------------------------------------------------------------------------
  // getFormItemsMap
  // ---------------------------------------------------------------------------

  /** Item `i` exists and has the truthy name `n`. */
  predicate NamedAt<V>(items: Items<V>, i: int, n: string)
  {
    0 <= i < |items| && items[i].Some? && items[i].value.name == n && n != ""
  }

  /**
   * `getFormItemsMap`: the reduce over the items, `{ ...acc, [name]: item }`
   * for every item with a truthy name. The map holds the item's index.
   */
  function ItemsMap<V>(items: Items<V>): (m: map<string, nat>)
    ensures forall n :: n in m ==> NamedAt(items, m[n], n)
  {
    if items == [] then map[]
    else
      var last := |items| - 1;
      var m := ItemsMap(items[..last]);
      match items[last]
      case Some(item) => if item.name != "" then m[item.name := last] else m
      case None => m
  }

  /** The map holds exactly the truthy names, each bound to the LAST item that has it. */
  lemma {:induction false} ItemsMapLastWins<V>(items: Items<V>, n: string)
    ensures n in ItemsMap(items) <==> exists i :: NamedAt(items, i, n)
    ensures n in ItemsMap(items) ==>
              forall j :: ItemsMap(items)[n] < j < |items| ==> !NamedAt(items, j, n)
  {
    if items != [] {
      var last := |items| - 1;
      var prefix := items[..last];
      ItemsMapLastWins(prefix, n);
      forall i | 0 <= i < last ensures NamedAt(items, i, n) <==> NamedAt(prefix, i, n) {
        assert items[i] == prefix[i];
      }
      if exists i :: NamedAt(items, i, n) {
        var i :| NamedAt(items, i, n);
        if i < last {
          assert NamedAt(prefix, i, n);
        }
      }
    }
  }

  /** The value of the item a name maps to. */
  function MappedValue<V>(items: Items<V>, n: string): V
    requires n in ItemsMap(items)
  {
    items[ItemsMap(items)[n]].value.value
  }

  // ---------------------------------------------------------------------------
  // getFieldValue
  // ---------------------------------------------------------------------------

  /** Index of the first item whose name is `name` (`Array.prototype.find`). */
  function FindFirst<V>(items: Items<V>, name: string): (r: Option<nat>)
    ensures r.None? ==> forall i :: 0 <= i < |items| ==> !(items[i].Some? && items[i].value.name == name)
    ensures r.Some? ==> r.value < |items| && items[r.value].Some? && items[r.value].value.name == name &&
                        forall i :: 0 <= i < r.value ==> !(items[i].Some? && items[i].value.name == name)
  {
    if items == [] then None
    else if items[0].Some? && items[0].value.name == name then Some(0)
    else
      match FindFirst(items[1..], name)
      case None => None
      case Some(j) => Some(j + 1)
  }

  /**
   * `getFieldValue(name)`: `null` for a falsy name, the value of the FIRST
   * item with that name, and a TypeError when no item has it.
   */
  function GetFieldValue<V>(items: Items<V>, name: string): (r: Result<Option<V>>)
    ensures name == "" ==> r == Ok(None)
    ensures name != "" && r.Ok? ==>
              exists i :: NamedAt(items, i, name) && r.value == Some(items[i].value.value) &&
                          forall j :: 0 <= j < i ==> !NamedAt(items, j, name)
    ensures name != "" ==> (r.Throws? <==> forall i :: 0 <= i < |items| ==> !NamedAt(items, i, name))
  {
    if name == "" then Ok(None)
    else
      match FindFirst(items, name)
      case None => Throws("getFieldValue")
      case Some(i) => Ok(Some(items[i].value.value))
  }

  // ---------------------------------------------------------------------------
  // getFieldsValue
  // ---------------------------------------------------------------------------

  /** The values `getFieldsValue(true)` collects, item by item: a later item overwrites. */
  function AllValues<V>(items: Items<V>): (fv: map<string, V>)
    ensures forall n :: n in fv ==> n != ""
  {
    if items == [] then map[]
    else
      var last := |items| - 1;
      var fv := AllValues(items[..last]);
      match items[last]
      case Some(item) => if item.name != "" then fv[item.name := item.value] else fv
      case None => fv
  }

  /** Collecting item by item gives name -> value of the item the map binds the name to. */
  lemma {:induction false} AllValuesMatchItemsMap<V>(items: Items<V>)
    ensures AllValues(items).Keys == ItemsMap(items).Keys
    ensures forall n :: n in ItemsMap(items) ==> AllValues(items)[n] == MappedValue(items, n)
  {
    if items != [] {
      var last := |items| - 1;
      var prefix := items[..last];
      AllValuesMatchItemsMap(prefix);
      forall n | n in ItemsMap(prefix)
        ensures MappedValue(prefix, n) == items[ItemsMap(prefix)[n]].value.value
      {
        assert prefix[ItemsMap(prefix)[n]] == items[ItemsMap(prefix)[n]];
      }
    }
  }

  /** The values `getFieldsValue(names)` collects: requested names that the map knows. */
  function PickedValues<V>(items: Items<V>, names: seq<string>): (fv: map<string, V>)
    ensures forall n :: n in fv <==> n in names && n in ItemsMap(items)
    ensures forall n :: n in fv ==> fv[n] == MappedValue(items, n)
  {
    map n | n in names && n in ItemsMap(items) :: MappedValue(items, n)
  }

  /**
   * `getFieldsValue(nameList)`: `true` collects every named item, an array
   * collects the requested names found in the map, anything else throws.
   */
  method GetFieldsValue<V>(items: Items<V>, nameList: Arg<string>) returns (r: Result<map<string, V>>)
    ensures nameList == Bool(true) ==>
              r.Ok? && r.value.Keys == ItemsMap(items).Keys &&
              forall n :: n in r.value ==> r.value[n] == MappedValue(items, n)
    ensures nameList.Array? ==> r == Ok(PickedValues(items, nameList.elems))
    ensures nameList != Bool(true) && !nameList.Array? ==> r == Throws("getFieldsValue")
  {
    var formItemsMap := ItemsMap(items);
    var fieldsValue: map<string, V> := map[];
    if nameList == Bool(true) {
      var i := 0;
      while i < |items|
        invariant 0 <= i <= |items|
        invariant fieldsValue == AllValues(items[..i])
      {
        assert items[..i + 1][..i] == items[..i];
        match items[i] {
          case Some(item) =>
            if item.name != "" {
              fieldsValue := fieldsValue[item.name := item.value];
            }
          case None =>
        }
        i := i + 1;
      }
      assert items[..i] == items;
      AllValuesMatchItemsMap(items);
      r := Ok(fieldsValue);
    } else if nameList.Array? {
      var names := nameList.elems;
      var i := 0;
      while i < |names|
        invariant 0 <= i <= |names|
        invariant fieldsValue == PickedValues(items, names[..i])
      {
        var name := names[i];
        if name in formItemsMap {
          fieldsValue := fieldsValue[name := items[formItemsMap[name]].value.value];
        }
        assert names[..i + 1] == names[..i] + [name];
        i := i + 1;
      }
      assert names[..i] == names;
      r := Ok(fieldsValue);
    } else {
      r := Throws("getFieldsValue");
    }
  }

  // ---------------------------------------------------------------------------
  // Calls on the items
  // ---------------------------------------------------------------------------

  /** `names.forEach(n => formItemsMap[n]?.op(...))`: requests with an unknown name do nothing. */
  function Dispatched<V>(m: map<string, nat>, reqs: seq<(string, ItemOp<V>)>): (calls: seq<ItemCall<V>>)
    ensures |calls| <= |reqs|
    ensures forall c :: c in calls ==> c.target in m.Values
  {
    if reqs == [] then []
    else
      var last := |reqs| - 1;
      var p := Dispatched(m, reqs[..last]);
      if reqs[last].0 in m then p + [ItemCall(m[reqs[last].0], reqs[last].1)] else p
  }

  /** Dispatching calls, for each request whose name is in the map, the item the name maps to, and nothing else. */
  lemma {:induction false} DispatchedMembers<V>(m: map<string, nat>, reqs: seq<(string, ItemOp<V>)>)
    ensures forall c :: c in Dispatched(m, reqs) <==>
              exists i :: 0 <= i < |reqs| && reqs[i].0 in m && c == ItemCall(m[reqs[i].0], reqs[i].1)
  {
    if reqs != [] {
      var last := |reqs| - 1;
      var p := reqs[..last];
      DispatchedMembers(m, p);
      assert forall i :: 0 <= i < last ==> reqs[i] == p[i];
    }
  }

  /** The calls of request `i` sit between those of the requests before it and after it. */
  lemma DispatchedSplit<V>(m: map<string, nat>, reqs: seq<(string, ItemOp<V>)>, i: nat)
    requires i < |reqs|
    ensures Dispatched(m, reqs) ==
              Dispatched(m, reqs[..i]) +
              (if reqs[i].0 in m then [ItemCall(m[reqs[i].0], reqs[i].1)] else []) +
              Dispatched(m, reqs[i + 1..])
  {
    assert reqs == reqs[..i] + ([reqs[i]] + reqs[i + 1..]);
    DispatchedAppend(m, reqs[..i], [reqs[i]] + reqs[i + 1..]);
    DispatchedAppend(m, [reqs[i]], reqs[i + 1..]);
    DispatchedSingle(m, reqs[i]);
  }

  /**
   * Dispatching makes one call per request whose name is in the map, in
   * request order, on the item the name maps to, and no other call: request
   * `i` contributes its call exactly between those of the requests before and
   * after it; so when every name is known, call `i` is request `i`'s.
   */
  lemma DispatchedCalls<V>(m: map<string, nat>, reqs: seq<(string, ItemOp<V>)>)
    ensures forall c :: c in Dispatched(m, reqs) <==>
              exists i :: 0 <= i < |reqs| && reqs[i].0 in m && c == ItemCall(m[reqs[i].0], reqs[i].1)
    ensures forall i :: 0 <= i < |reqs| ==>
              Dispatched(m, reqs) ==
                Dispatched(m, reqs[..i]) +
                (if reqs[i].0 in m then [ItemCall(m[reqs[i].0], reqs[i].1)] else []) +
                Dispatched(m, reqs[i + 1..])
    ensures (forall i :: 0 <= i < |reqs| ==> reqs[i].0 in m) ==>
              |Dispatched(m, reqs)| == |reqs| &&
              forall i :: 0 <= i < |reqs| ==> Dispatched(m, reqs)[i] == ItemCall(m[reqs[i].0], reqs[i].1)
  {
    DispatchedMembers(m, reqs);
    forall i | 0 <= i < |reqs|
      ensures Dispatched(m, reqs) ==
                Dispatched(m, reqs[..i]) +
                (if reqs[i].0 in m then [ItemCall(m[reqs[i].0], reqs[i].1)] else []) +
                Dispatched(m, reqs[i + 1..])
    {
      DispatchedSplit(m, reqs, i);
    }
    if forall i :: 0 <= i < |reqs| ==> reqs[i].0 in m {
      AllKnown(m, reqs);
    }
  }

  lemma {:induction false} AllKnown<V>(m: map<string, nat>, reqs: seq<(string, ItemOp<V>)>)
    requires forall i :: 0 <= i < |reqs| ==> reqs[i].0 in m
    ensures |Dispatched(m, reqs)| == |reqs|
    ensures forall i :: 0 <= i < |reqs| ==> Dispatched(m, reqs)[i] == ItemCall(m[reqs[i].0], reqs[i].1)
  {
    if reqs != [] {
      var last := |reqs| - 1;
      var p := reqs[..last];
      assert forall i :: 0 <= i < last ==> reqs[i] == p[i];
      AllKnown(m, p);
    }
  }

  /** A single request makes its one call when its name is known, none otherwise. */
  lemma DispatchedSingle<V>(m: map<string, nat>, r: (string, ItemOp<V>))
    ensures Dispatched(m, [r]) == if r.0 in m then [ItemCall(m[r.0], r.1)] else []
  {
  }

  /**
   * Dispatching follows the request order: the calls for a later batch of
   * requests come after those for an earlier one.
   */
  lemma {:induction false} DispatchedAppend<V>(m: map<string, nat>, a: seq<(string, ItemOp<V>)>, b: seq<(string, ItemOp<V>)>)
    ensures Dispatched(m, a + b) == Dispatched(m, a) + Dispatched(m, b)
    decreases |b|
  {
    if b == [] {
      assert a + b == a;
    } else {
      var n := |b| - 1;
      assert (a + b)[..|a + b| - 1] == a + b[..n];
      assert (a + b)[|a + b| - 1] == b[n];
      DispatchedAppend(m, a, b[..n]);
    }
  }

  /** The items `keep` selects, in order, each getting the call `op`. */
  function Select<V>(items: Items<V>, keep: FormItem<V> -> bool, op: ItemOp<V>): (calls: seq<ItemCall<V>>)
    ensures |calls| <= |items|
    ensures forall j :: 0 <= j < |calls| ==>
              calls[j].op == op && calls[j].target < |items| &&
              items[calls[j].target].Some? && keep(items[calls[j].target].value)
  {
    if items == [] then []
    else
      var last := |items| - 1;
      var p := Select(items[..last], keep, op);
      if items[last].Some? && keep(items[last].value) then p + [ItemCall(last, op)] else p
  }

  /** Selection calls every non-null item `keep` accepts, exactly once, in index order. */
  lemma {:induction false} SelectCalls<V>(items: Items<V>, keep: FormItem<V> -> bool, op: ItemOp<V>)
    ensures forall c :: c in Select(items, keep, op) <==>
              exists i :: 0 <= i < |items| && items[i].Some? && keep(items[i].value) && c == ItemCall(i, op)
    ensures forall a, b :: 0 <= a < b < |Select(items, keep, op)| ==>
              Select(items, keep, op)[a].target < Select(items, keep, op)[b].target
  {
    if items != [] {
      var last := |items| - 1;
      var p := items[..last];
      SelectCalls(p, keep, op);
      assert forall i :: 0 <= i < last ==> items[i] == p[i];
    }
  }

  /** `formItemsRef.current.forEach(({ current }) => current && current.op())`. */
  function Broadcast<V>(items: Items<V>, op: ItemOp<V>): (calls: seq<ItemCall<V>>)
    ensures forall i :: 0 <= i < |items| ==> (ItemCall(i, op) in calls <==> items[i].Some?)
    ensures forall c :: c in calls ==> c.op == op && c.target < |items|
    ensures forall a, b :: 0 <= a < b < |calls| ==> calls[a].target < calls[b].target
  {
    SelectCalls(items, _ => true, op);
    Select(items, _ => true, op)
  }

  /** The loop of `setFieldsValue`, `setFields`, `reset` and `clearValidate` over requested names. */
  method DispatchEach<V>(m: map<string, nat>, reqs: seq<(string, ItemOp<V>)>) returns (calls: seq<ItemCall<V>>)
    ensures calls == Dispatched(m, reqs)
  {
    calls := [];
    var i := 0;
    while i < |reqs|
      invariant 0 <= i <= |reqs|
      invariant calls == Dispatched(m, reqs[..i])
    {
      assert reqs[..i + 1][..i] == reqs[..i];
      var (name, op) := reqs[i];
      if name in m {
        calls := calls + [ItemCall(m[name], op)];
      }
      i := i + 1;
    }
    assert reqs[..i] == reqs;
  }

  /** The loop of `reset()` and `clearValidate()` over every registered item. */
  method ForEachItem<V>(items: Items<V>, op: ItemOp<V>) returns (calls: seq<ItemCall<V>>)
    ensures calls == Broadcast(items, op)
  {
    calls := [];
    var i := 0;
    while i < |items|
      invariant 0 <= i <= |items|
      invariant calls == Broadcast(items[..i], op)
    {
      assert items[..i + 1][..i] == items[..i];
      if items[i].Some? {
        calls := calls + [ItemCall(i, op)];
      }
      i := i + 1;
    }
    assert items[..i] == items;
  }

  // ---------------------------------------------------------------------------
  // setFieldsValue, setFields, reset, clearValidate, setValidateMessage
  // ---------------------------------------------------------------------------

  function SetValueRequests<V>(fields: seq<(string, V)>): (reqs: seq<(string, ItemOp<V>)>)
  {
    seq(|fields|, i requires 0 <= i < |fields| => (fields[i].0, SetValue(fields[i].1)))
  }

  /**
   * `setFieldsValue(fields = {})`: `setValue` on the mapped item of every key
   * the map knows, in key order; unknown keys are ignored.
   */
  method SetFieldsValue<V>(items: Items<V>, fields: seq<(string, V)>) returns (calls: seq<ItemCall<V>>)
    ensures calls == Dispatched(ItemsMap(items), SetValueRequests(fields))
    ensures forall c :: c in calls <==>
              exists i :: 0 <= i < |fields| && fields[i].0 in ItemsMap(items) &&
                          c == ItemCall(ItemsMap(items)[fields[i].0], SetValue(fields[i].1))
  {
    var reqs := SetValueRequests(fields);
    assert |reqs| == |fields| && forall i :: 0 <= i < |fields| ==> reqs[i] == (fields[i].0, SetValue(fields[i].1));
    calls := DispatchEach(ItemsMap(items), reqs);
    DispatchedMembers(ItemsMap(items), reqs);
  }

  /** One element of the array `setFields` takes. */
  datatype FieldData<V> = FieldData(name: string, value: Option<V>, status: Option<string>)

  function SetFieldRequests<V>(fields: seq<FieldData<V>>): (reqs: seq<(string, ItemOp<V>)>)
  {
    seq(|fields|, i requires 0 <= i < |fields| => (fields[i].name, SetField(fields[i].value, fields[i].status)))
  }

  /** The calls `setFields` dispatches, stated through the fields themselves. */
  lemma SetFieldCalls<V>(m: map<string, nat>, fields: seq<FieldData<V>>)
    ensures forall c :: c in Dispatched(m, SetFieldRequests(fields)) <==>
              exists i :: 0 <= i < |fields| && fields[i].name in m &&
                          c == ItemCall(m[fields[i].name], SetField(fields[i].value, fields[i].status))
  {
    var reqs := SetFieldRequests(fields);
    assert |reqs| == |fields| &&
           forall i :: 0 <= i < |fields| ==> reqs[i] == (fields[i].name, SetField(fields[i].value, fields[i].status));
    DispatchedMembers(m, reqs);
  }

  /**
   * `setFields(fields = [])`: throws unless given an array (or nothing);
   * otherwise `setField({ value, status })` on the mapped item of each known name.
   */
  method SetFields<V>(items: Items<V>, fields: Arg<FieldData<V>>) returns (r: Result<seq<ItemCall<V>>>)
    ensures (fields.Undefined? || fields.Array?) <==> r.Ok?
    ensures r.Throws? ==> r.origin == "setFields"
    ensures fields.Undefined? ==> r == Ok([])
    ensures fields.Array? ==> r == Ok(Dispatched(ItemsMap(items), SetFieldRequests(fields.elems)))
    ensures fields.Array? ==> forall c :: c in r.value <==>
              exists i :: 0 <= i < |fields.elems| && fields.elems[i].name in ItemsMap(items) &&
                          c == ItemCall(ItemsMap(items)[fields.elems[i].name],
                                        SetField(fields.elems[i].value, fields.elems[i].status))
  {
    if !fields.Undefined? && !fields.Array? {
      return Throws("setFields");
    }
    var elems := if fields.Array? then fields.elems else [];
    var reqs := SetFieldRequests(elems);
    var calls := DispatchEach(ItemsMap(items), reqs);
    SetFieldCalls(ItemsMap(items), elems);
    r := Ok(calls);
  }

  /**
   * The object `reset` takes; an absent `fields` is `[]`, an absent `type` is `'initial'`.
   * `None` means the property is absent (`undefined`); an explicit `null` is not modelled.
   */
  datatype ResetParams = ResetParams(resetType: Option<ResetType>, fields: Option<seq<string>>)

  function ResetRequests<V>(names: seq<string>, t: ResetType): seq<(string, ItemOp<V>)>
  {
    seq(|names|, i requires 0 <= i < |names| => (names[i], ResetField(Some(t))))
  }

  /**
   * `reset(params)`: no argument resets every non-null item, named or not;
   * otherwise only the listed names found in the map, with `type` (default `'initial'`).
   */
  method Reset<V>(items: Items<V>, params: Option<ResetParams>) returns (calls: seq<ItemCall<V>>)
    ensures params.None? ==> calls == Broadcast(items, ResetField(None))
    ensures params.Some? ==>
              var t := if params.value.resetType.Some? then params.value.resetType.value else Initial;
              var names := if params.value.fields.Some? then params.value.fields.value else [];
              calls == Dispatched(ItemsMap(items), ResetRequests(names, t))
  {
    match params
    case None =>
      calls := ForEachItem(items, ResetField(None));
    case Some(p) =>
      var t := if p.resetType.Some? then p.resetType.value else Initial;
      var names := if p.fields.Some? then p.fields.value else [];
      calls := DispatchEach(ItemsMap(items), ResetRequests(names, t));
  }

  function ClearRequests<V>(names: seq<string>): seq<(string, ItemOp<V>)>
  {
    seq(|names|, i requires 0 <= i < |names| => (names[i], ResetValidate))
  }

  /**
   * `clearValidate(fields)`: `undefined` clears every non-null item, an array
   * clears the listed names found in the map, anything else throws.
   */
  method ClearValidate<V>(items: Items<V>, fields: Arg<string>) returns (r: Result<seq<ItemCall<V>>>)
    ensures fields.Undefined? ==> r == Ok(Broadcast(items, ResetValidate))
    ensures fields.Array? ==> r == Ok(Dispatched(ItemsMap(items), ClearRequests(fields.elems)))
    ensures !fields.Undefined? && !fields.Array? ==> r == Throws("clearValidate")
  {
    match fields
    case Undefined =>
      var calls := ForEachItem(items, ResetValidate);
      r := Ok(calls);
    case Array(names) =>
      var calls := DispatchEach(ItemsMap(items), ClearRequests(names));
      r := Ok(calls);
    case _ =>
      r := Throws("clearValidate");
  }

  /** Length of the longest prefix of `message` whose names the map knows. */
  function KnownPrefix(m: map<string, nat>, message: seq<(string, seq<string>)>): (k: nat)
    ensures k <= |message|
    ensures forall i :: 0 <= i < k ==> message[i].0 in m
    ensures k < |message| ==> message[k].0 !in m
  {
    if message == [] || message[0].0 !in m then 0 else 1 + KnownPrefix(m, message[1..])
  }

  /** The `forEach` of `setValidateMessage` over a given item table. */
  method ReportMessages<V>(m: map<string, nat>, message: seq<(string, seq<string>)>)
    returns (calls: seq<ItemCall<V>>, thrown: bool)
    ensures thrown <==> KnownPrefix(m, message) < |message|
    ensures |calls| == KnownPrefix(m, message)
    ensures forall i :: 0 <= i < |calls| ==>
              message[i].0 in m && calls[i] == ItemCall(m[message[i].0], SetValidateMessage(message[i].1))
  {
    ghost var k := KnownPrefix(m, message);
    calls := [];
    thrown := false;
    var i := 0;
    while i < |message|
      invariant 0 <= i <= k
      invariant |calls| == i
      invariant forall j :: 0 <= j < i ==>
                  message[j].0 in m && calls[j] == ItemCall(m[message[j].0], SetValidateMessage(message[j].1))
    {
      var (name, msg) := message[i];
      if name !in m {
        thrown := true;
        return;
      }
      calls := calls + [ItemCall(m[name], SetValidateMessage(msg))];
      i := i + 1;
    }
  }

  /**
   * `setValidateMessage(message)`: there is no `?.` here, so the first name
   * the map does not know throws a TypeError, after the calls for the names
   * before it have been made.
   */
  method SetValidateMessages<V>(items: Items<V>, message: seq<(string, seq<string>)>)
    returns (calls: seq<ItemCall<V>>, thrown: bool)
    ensures thrown <==> KnownPrefix(ItemsMap(items), message) < |message|
    ensures |calls| == KnownPrefix(ItemsMap(items), message)
    ensures forall i :: 0 <= i < |calls| ==>
              message[i].0 in ItemsMap(items) &&
              calls[i] == ItemCall(ItemsMap(items)[message[i].0], SetValidateMessage(message[i].1))
  {
    calls, thrown := ReportMessages(ItemsMap(items), message);
  }

  // ---------------------------------------------------------------------------
  // validate and submit
  // ---------------------------------------------------------------------------

  /**
   * `needValidate(name, fields)`: without an array of fields every item is
   * validated; an empty array validates none.
   */
  function NeedValidate(name: string, fields: Arg<string>): (b: bool)
    ensures !fields.Array? ==> b
    ensures fields == Array([]) ==> !b
    ensures fields.Array? && name in fields.elems ==> b
  {
    !fields.Array? || name in fields.elems
  }

  /**
   * The object `validate` takes; `param || {}` turns a missing one into `{}`.
   * `trigger == None` means the property is absent (`undefined`); an explicit `null` is not modelled.
   */
  datatype ValidateParam = ValidateParam(fields: Arg<string>, trigger: Option<string>)

  function TriggerOf(param: Option<ValidateParam>): string
  {
    if param.Some? && param.value.trigger.Some? then param.value.trigger.value else "all"
  }

  function FieldsOf(param: Option<ValidateParam>): Arg<string>
  {
    if param.Some? then param.value.fields else Undefined
  }

  /** The `filter(...).map(ref => ref.validate(trigger))` of `validate`. */
  function ValidateCalls<V>(items: Items<V>, param: Option<ValidateParam>): (calls: seq<ItemCall<V>>)
    ensures forall j :: 0 <= j < |calls| ==>
              calls[j].op == Validate(TriggerOf(param)) && calls[j].target < |items| &&
              items[calls[j].target].Some? && items[calls[j].target].value.hasValidate
  {
    var fields := FieldsOf(param);
    Select(items, (item: FormItem<V>) => item.hasValidate && NeedValidate(item.name, fields),
           Validate(TriggerOf(param)))
  }

  /**
   * `validate` calls `validate(trigger)` on exactly the non-null items that
   * have a validate function and pass `needValidate`, once each, in order;
   * `trigger` defaults to `'all'`; without an array of fields every such item
   * is validated, named or not.
   */
  lemma ValidateCallsSpec<V>(items: Items<V>, param: Option<ValidateParam>)
    ensures forall c :: c in ValidateCalls(items, param) <==>
              exists i :: 0 <= i < |items| && items[i].Some? && items[i].value.hasValidate &&
                          (!FieldsOf(param).Array? || items[i].value.name in FieldsOf(param).elems) &&
                          c == ItemCall(i, Validate(if param.Some? && param.value.trigger.Some?
                                                    then param.value.trigger.value else "all"))
    ensures forall a, b :: 0 <= a < b < |ValidateCalls(items, param)| ==>
              ValidateCalls(items, param)[a].target < ValidateCalls(items, param)[b].target
  {
    var fields := FieldsOf(param);
    SelectCalls(items, (item: FormItem<V>) => item.hasValidate && NeedValidate(item.name, fields),
                Validate(TriggerOf(param)));
  }

  /**
   * `validate(param)`, with the per-call resolved results given: the calls it
   * makes, and what its promise resolves to.
   */
  method ValidateForm<V>(items: Items<V>, param: Option<ValidateParam>, outcomes: seq<seq<ErrorMap>>)
    returns (calls: seq<ItemCall<V>>, result: FormValidateResult)
    requires |outcomes| == |ValidateCalls(items, param)|
    ensures calls == ValidateCalls(items, param)
    ensures result == Aggregate(outcomes)
    ensures result.Errors? ==> result.errors != [] && IsObject(result.errors)
  {
    calls := ValidateCalls(items, param);
    result := AggregateResults(outcomes);
  }

  /**
   * `submit`: `validate()` with no argument, then `onSubmit` receives the
   * result and its first error.
   */
  method Submit<V>(items: Items<V>, outcomes: seq<seq<ErrorMap>>)
    returns (calls: seq<ItemCall<V>>, result: FormValidateResult, firstError: Option<string>)
    requires |outcomes| == |ValidateCalls(items, None)|
    ensures calls == ValidateCalls(items, None)
    ensures result == Aggregate(outcomes)
    ensures firstError == FirstError(result)
  {
    calls, result := ValidateForm(items, None, outcomes);
    firstError := FirstError(result);
  }

  // ---------------------------------------------------------------------------
  // Properties relating operations
  // ---------------------------------------------------------------------------

  /**
   * With two items named alike, `getFieldValue` reads the first of them (or
   * one before it), while `getFormItemsMap`, and so `getFieldsValue` and the
   * setters, binds the name to the second (or one after it).
   */
  lemma FirstAndLastDiffer<V>(items: Items<V>, n: string, i: nat, j: nat)
    requires NamedAt(items, i, n) && NamedAt(items, j, n) && i < j
    ensures FindFirst(items, n).Some? && FindFirst(items, n).value <= i
    ensures GetFieldValue(items, n) == Ok(Some(items[FindFirst(items, n).value].value.value))
    ensures n in ItemsMap(items) && ItemsMap(items)[n] >= j
  {
  }

  /** An item that no name in the table is bound to: nameless, or followed by an item with its name. */
  predicate Shadowed<V>(items: Items<V>, i: int)
  {
    0 <= i < |items| && items[i].Some? &&
    (items[i].value.name == "" || exists j :: i < j < |items| && NamedAt(items, j, items[i].value.name))
  }

  /**
   * `reset()` and `reset({ fields })` differ: the former reaches every
   * non-null item, while the latter never reaches an item the table does not
   * bind, whatever names it lists.
   */
  lemma ResetShadowed<V>(items: Items<V>, i: int, names: seq<string>, t: ResetType)
    requires Shadowed(items, i)
    ensures ItemCall(i, ResetField(None)) in Broadcast(items, ResetField(None))
    ensures forall c :: c in Dispatched(ItemsMap(items), ResetRequests<V>(names, t)) ==> c.target != i
  {
    var m := ItemsMap(items);
    var calls := Dispatched(m, ResetRequests<V>(names, t));
    forall c | c in calls ensures c.target != i {
      var x :| x in m && m[x] == c.target;
      ItemsMapLastWins(items, x);
    }
  }
}
