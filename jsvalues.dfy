/** The JavaScript values the modelled boundary code receives from JSON
    (request bodies, database rows, API responses), with the two
    conversions it applies to them: truthiness and `String(value)`.
    Numbers are integers here. */
module JsValues {
  import opened Seqs
  import opened JsText

  datatype Json =
    | JUndefined
    | JNull
    | JBool(b: bool)
    | JNum(n: int)
    | JStr(s: string)
    | JArr(items: seq<Json>)
    | JObj(fields: seq<(string, Json)>)

  /** The values `if (x)` accepts: every value except the five falsy
      ones. */
  function Truthy(v: Json): (b: bool)
    ensures !b <==> v == JUndefined || v == JNull || v == JBool(false) || v == JNum(0) || v == JStr("")
  {
    match v
    case JUndefined => false
    case JNull => false
    case JBool(b) => b
    case JNum(n) => n != 0
    case JStr(s) => s != ""
    case JArr(_) => true
    case JObj(_) => true
  }

  /** `String(value)`, which is also what a template literal inserts. An
      array is its elements joined by commas, `null` and `undefined`
      elements written as nothing. */
  function ToStr(v: Json): (r: string)
    ensures v.JStr? ==> r == v.s
    ensures !Truthy(v) ==> r in {"undefined", "null", "false", "0", ""}
    ensures !v.JArr? ==> (r == "" <==> v == JStr(""))
    decreases v
  {
    match v
    case JUndefined => "undefined"
    case JNull => "null"
    case JBool(b) => if b then "true" else "false"
    case JNum(n) => IntToString(n)
    case JStr(s) => s
    case JArr(items) =>
      Join(seq(|items|, i requires 0 <= i < |items| =>
             if items[i].JUndefined? || items[i].JNull? then "" else ToStr(items[i])), ",")
    case JObj(_) => "[object Object]"
  }

  /** `fields[i]` is the last field named `key`. */
  predicate LastWith(fields: seq<(string, Json)>, key: string, i: int) {
    0 <= i < |fields| && fields[i].0 == key && forall j :: i < j < |fields| ==> fields[j].0 != key
  }

  /** Property access `obj.key`: `undefined` for a value that is not an
      object and for an object without that field; otherwise the value of
      the LAST field of that name, since `JSON.parse` lets a repeated key
      overwrite the earlier one. */
  function Get(v: Json, key: string): (r: Json)
    ensures !v.JObj? ==> r == JUndefined
    ensures v.JObj? && (forall i :: 0 <= i < |v.fields| ==> v.fields[i].0 != key) ==> r == JUndefined
    ensures v.JObj? && (exists i :: 0 <= i < |v.fields| && v.fields[i].0 == key) ==>
              exists i :: LastWith(v.fields, key, i) && r == v.fields[i].1
  {
    if v.JObj? then LookupSpec(v.fields, key); Lookup(v.fields, key) else JUndefined
  }

  /** The value of the last field named `key`, searching from the end. */
  function Lookup(fields: seq<(string, Json)>, key: string): Json
    decreases |fields|
  {
    if fields == [] then JUndefined
    else if fields[|fields| - 1].0 == key then fields[|fields| - 1].1
    else Lookup(fields[..|fields| - 1], key)
  }

  /** The last field named `key` before a field of another name is still
      the last one after it. */
  lemma LastWithGrow(fields: seq<(string, Json)>, key: string, j: int)
    requires fields != [] && fields[|fields| - 1].0 != key
    requires LastWith(fields[..|fields| - 1], key, j)
    ensures LastWith(fields, key, j)
  {
    var init := fields[..|fields| - 1];
    assert fields[j] == init[j];
    forall k | j < k < |fields| ensures fields[k].0 != key {
      if k < |init| {
        assert fields[k] == init[k];
      }
    }
  }

  lemma {:induction false} LookupAbsent(fields: seq<(string, Json)>, key: string)
    requires forall i :: 0 <= i < |fields| ==> fields[i].0 != key
    ensures Lookup(fields, key) == JUndefined
    decreases |fields|
  {
    if fields != [] {
      var init := fields[..|fields| - 1];
      assert forall i :: 0 <= i < |init| ==> init[i] == fields[i];
      LookupAbsent(init, key);
    }
  }

  lemma {:induction false} LookupLast(fields: seq<(string, Json)>, key: string, i: int)
    requires 0 <= i < |fields| && fields[i].0 == key
    ensures exists j :: LastWith(fields, key, j) && Lookup(fields, key) == fields[j].1
    decreases |fields|
  {
    var n := |fields| - 1;
    if fields[n].0 == key {
      assert LastWith(fields, key, n);
    } else {
      var init := fields[..n];
      assert init[i] == fields[i];
      LookupLast(init, key, i);
      var j :| LastWith(init, key, j) && Lookup(init, key) == init[j].1;
      LastWithGrow(fields, key, j);
      assert fields[j] == init[j];
    }
  }

  lemma LookupSpec(fields: seq<(string, Json)>, key: string)
    ensures (forall i :: 0 <= i < |fields| ==> fields[i].0 != key) ==> Lookup(fields, key) == JUndefined
    ensures (exists i :: 0 <= i < |fields| && fields[i].0 == key) ==>
              exists i :: LastWith(fields, key, i) && Lookup(fields, key) == fields[i].1
  {
    if i :| 0 <= i < |fields| && fields[i].0 == key {
      LookupLast(fields, key, i);
    } else {
      LookupAbsent(fields, key);
    }
  }

  /** A repeated key: the later field is the one read. */
  lemma RepeatedKeyLastWins(key: string, first: Json, last: Json)
    ensures Get(JObj([(key, first), (key, last)]), key) == last
  {
    var fs := [(key, first), (key, last)];
    var i :| LastWith(fs, key, i) && Get(JObj(fs), key) == fs[i].1;
  }
}
