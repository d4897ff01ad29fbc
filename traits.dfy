/** Compile-time membership query over a type list (Traits.hpp).
    A "type" is modelled as a value of an equality type `X`; a tuple of types as `seq<X>`. */
module Traits {

  /** The two constants `std::false_type` and `std::true_type` that the query derives from. */
  datatype IntegralConstant = FalseType | TrueType {
    function Value(): (r: bool) {
      TrueType?
    }
  }

  /** `TupleHasType<T, std::tuple<Ts...>>`: one equation per specialization.
      `std::tuple<>` gives false, a head equal to `T` gives true, any other head
      defers to the tail. */
  function TupleHasType<X(==)>(t: X, tuple: seq<X>): (r: IntegralConstant)
    ensures r == TrueType <==> exists i :: 0 <= i < |tuple| && tuple[i] == t
  {
    if tuple == [] then FalseType
    else if tuple[0] == t then TrueType
    else
      var tail := TupleHasType(t, tuple[1..]);
      assert tail == TrueType ==> exists i :: 0 < i < |tuple| && tuple[i] == t by {
        if tail == TrueType {
          var j :| 0 <= j < |tuple[1..]| && tuple[1..][j] == t;
          assert tuple[j + 1] == t;
        }
      }
      tail
  }

  /** `TupleHasTypeV<T, Tuple>`, the `value` of the query's constant. */
  function TupleHasTypeV<X(==)>(t: X, tuple: seq<X>): (r: bool)
    ensures r <==> t in tuple
  {
    TupleHasType(t, tuple).Value()
  }
}
