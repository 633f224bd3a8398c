/**
 * Mapping a column's detected data type to a database column type.
 * The dtype itself is abstract: all the model knows of it is the answer
 * of each of the four dtype tests that the if/elif chain asks in turn.
 */
module SqlTypes {

  /** The five column types the importer can emit. */
  datatype SqlType = Integer | Float | Boolean | DateTime | String

  /** The answers of the integer, float, boolean and datetime dtype tests for one column. */
  datatype DTypeTests = DTypeTests(isInteger: bool, isFloat: bool, isBool: bool, isDatetime: bool)

  /** The if/elif chain: the first test that holds decides; String is the fallback. */
  function Infer(d: DTypeTests): SqlType {
    if d.isInteger then Integer
    else if d.isFloat then Float
    else if d.isBool then Boolean
    else if d.isDatetime then DateTime
    else String
  }

  /** The order in which the dtype tests are asked. */
  const Priority: seq<SqlType> := [Integer, Float, Boolean, DateTime]

  /** Whether the dtype test belonging to `t` holds; the fallback type always applies. */
  predicate Passes(d: DTypeTests, t: SqlType) {
    match t
    case Integer => d.isInteger
    case Float => d.isFloat
    case Boolean => d.isBool
    case DateTime => d.isDatetime
    case String => true
  }

  /** Reference definition: the first type of `ts` whose test holds, String when none does. */
  function FirstPassing(d: DTypeTests, ts: seq<SqlType>): (t: SqlType)
    requires String !in ts
    ensures Passes(d, t)
    ensures t in ts || t == String
    ensures t != String ==> exists i :: 0 <= i < |ts| && ts[i] == t && forall j :: 0 <= j < i ==> !Passes(d, ts[j])
    ensures t == String ==> forall j :: 0 <= j < |ts| ==> !Passes(d, ts[j])
  {
    if ts == [] then String
    else if Passes(d, ts[0]) then ts[0]
    else
      var t := FirstPassing(d, ts[1..]);
      assert t != String ==> exists i :: 0 <= i < |ts| && ts[i] == t && forall j :: 0 <= j < i ==> !Passes(d, ts[j]) by {
        if t != String {
          var i :| 0 <= i < |ts[1..]| && ts[1..][i] == t && forall j :: 0 <= j < i ==> !Passes(d, ts[1..][j]);
          assert ts[i + 1] == t;
          assert forall j :: 0 <= j < i + 1 ==> !Passes(d, ts[j]) by {
            forall j | 0 <= j < i + 1 ensures !Passes(d, ts[j]) {
              if j > 0 { assert ts[j] == ts[1..][j - 1]; }
            }
          }
        }
      }
      t
  }

  /** The chain is the priority list read front to back with String as the fallback. */
  lemma {:induction false} InferFollowsPriority(d: DTypeTests)
    ensures Infer(d) == FirstPassing(d, Priority)
  {
    var tail3: seq<SqlType> := [DateTime];
    var tail2: seq<SqlType> := [Boolean, DateTime];
    var tail1: seq<SqlType> := [Float, Boolean, DateTime];
    assert Priority[1..] == tail1 && tail1[1..] == tail2 && tail2[1..] == tail3 && tail3[1..] == [];
    assert FirstPassing(d, tail3) == if d.isDatetime then DateTime else String;
    assert FirstPassing(d, tail2) == if d.isBool then Boolean else FirstPassing(d, tail3);
    assert FirstPassing(d, tail1) == if d.isFloat then Float else FirstPassing(d, tail2);
  }

  /** Each outcome, in both directions: a type is chosen exactly when its test holds and no earlier one does. */
  lemma InferCases(d: DTypeTests)
    ensures Infer(d) == Integer <==> d.isInteger
    ensures Infer(d) == Float <==> !d.isInteger && d.isFloat
    ensures Infer(d) == Boolean <==> !d.isInteger && !d.isFloat && d.isBool
    ensures Infer(d) == DateTime <==> !d.isInteger && !d.isFloat && !d.isBool && d.isDatetime
    ensures Infer(d) == String <==> !d.isInteger && !d.isFloat && !d.isBool && !d.isDatetime
  {
  }
}
