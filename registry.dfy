/** The property-type registry: property id to datatype tag, filled from the property-info
    rows before any entity is read. */
module Registry {
  import opened Wrappers
  import opened Records

  /** Filling `m` from the remaining rows in order; a row without a type aborts. */
  function RegistryFrom(m: map<string, string>, rows: seq<PropertyRow>): Result<map<string, string>, Error>
    decreases |rows|
  {
    if rows == [] then Ok(m)
    else if rows[0].typeTag.None? then Fail(MalformedRegistryEntry(rows[0].id))
    else RegistryFrom(m[rows[0].id := rows[0].typeTag.value], rows[1..])
  }

  /** The registry the rows produce, or the abort for the first row without a type. */
  function RegistryOf(rows: seq<PropertyRow>): Result<map<string, string>, Error> {
    RegistryFrom(map[], rows)
  }

  /** Row i is the first one without a type. */
  ghost predicate FirstUntyped(rows: seq<PropertyRow>, i: int) {
    0 <= i < |rows| && rows[i].typeTag.None? &&
    forall j :: 0 <= j < i ==> rows[j].typeTag.Some?
  }

  /** Row i is the last row naming its property id. */
  ghost predicate LastFor(rows: seq<PropertyRow>, i: int) {
    0 <= i < |rows| && forall j :: i < j < |rows| ==> rows[j].id != rows[i].id
  }

  ghost function Ids(rows: seq<PropertyRow>): set<string> {
    set i | 0 <= i < |rows| :: rows[i].id
  }

  lemma {:induction false} RegistryFromMeaning(m: map<string, string>, rows: seq<PropertyRow>)
    ensures RegistryFrom(m, rows).Fail? <==> exists i :: 0 <= i < |rows| && rows[i].typeTag.None?
    ensures RegistryFrom(m, rows).Fail? ==>
      exists i :: FirstUntyped(rows, i) && RegistryFrom(m, rows).error == MalformedRegistryEntry(rows[i].id)
    ensures RegistryFrom(m, rows).Ok? ==> RegistryFrom(m, rows).value.Keys == m.Keys + Ids(rows)
    ensures RegistryFrom(m, rows).Ok? ==>
      forall i :: LastFor(rows, i) ==> RegistryFrom(m, rows).value[rows[i].id] == rows[i].typeTag.value
    ensures RegistryFrom(m, rows).Ok? ==>
      forall k :: k in m && k !in Ids(rows) ==> RegistryFrom(m, rows).value[k] == m[k]
    decreases |rows|
  {
    if rows == [] {
    } else if rows[0].typeTag.None? {
      assert FirstUntyped(rows, 0);
    } else {
      var m' := m[rows[0].id := rows[0].typeTag.value];
      var tail := rows[1..];
      RegistryFromMeaning(m', tail);
      var r := RegistryFrom(m, rows);
      assert r == RegistryFrom(m', tail);
      if r.Fail? {
        var i :| FirstUntyped(tail, i) && r.error == MalformedRegistryEntry(tail[i].id);
        assert FirstUntyped(rows, i + 1);
      } else {
        assert forall i :: 0 <= i < |tail| ==> tail[i].typeTag.Some?;
        assert Ids(rows) == {rows[0].id} + Ids(tail) by {
          forall x | x in Ids(rows) ensures x in {rows[0].id} + Ids(tail) {
            var i :| 0 <= i < |rows| && rows[i].id == x;
            if i > 0 { assert tail[i - 1].id == x; }
          }
          forall x | x in Ids(tail) ensures x in Ids(rows) {
            var i :| 0 <= i < |tail| && tail[i].id == x;
            assert rows[i + 1].id == x;
          }
        }
        forall i | LastFor(rows, i) ensures r.value[rows[i].id] == rows[i].typeTag.value {
          if i == 0 {
            assert rows[0].id !in Ids(tail) by {
              forall j | 0 <= j < |tail| ensures tail[j].id != rows[0].id {
                assert rows[j + 1] == tail[j];
              }
            }
          } else {
            assert LastFor(tail, i - 1);
          }
        }
      }
    }
  }

  /** Registry construction is all-or-nothing: it succeeds exactly when every row has a type,
      a failure names the first row without one, and on success every listed id is mapped to
      the type of the last row naming it and no other id is mapped. */
  lemma RegistryOfMeaning(rows: seq<PropertyRow>)
    ensures RegistryOf(rows).Fail? <==> exists i :: 0 <= i < |rows| && rows[i].typeTag.None?
    ensures RegistryOf(rows).Fail? ==>
      exists i :: FirstUntyped(rows, i) && RegistryOf(rows).error == MalformedRegistryEntry(rows[i].id)
    ensures RegistryOf(rows).Ok? ==> RegistryOf(rows).value.Keys == Ids(rows)
    ensures RegistryOf(rows).Ok? ==>
      forall i :: LastFor(rows, i) ==> RegistryOf(rows).value[rows[i].id] == rows[i].typeTag.value
  {
    RegistryFromMeaning(map[], rows);
  }

  /** The loop that fills the registry in place and stops at the first row without a type. */
  method BuildRegistry(rows: seq<PropertyRow>) returns (r: Result<map<string, string>, Error>)
    ensures r == RegistryOf(rows)
  {
    var propinfo: map<string, string> := map[];
    var i := 0;
    while i < |rows|
      invariant 0 <= i <= |rows|
      invariant RegistryOf(rows) == RegistryFrom(propinfo, rows[i..])
    {
      assert rows[i..][1..] == rows[i + 1..];
      if rows[i].typeTag.Some? {
        propinfo := propinfo[rows[i].id := rows[i].typeTag.value];
      } else {
        return Fail(MalformedRegistryEntry(rows[i].id));
      }
      i := i + 1;
    }
    r := Ok(propinfo);
  }
}
