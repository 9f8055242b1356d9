/** Types shared by the REST and SOAP services: the products table row,
    values bound to statement placeholders, and an order-preserving filter
    standing for what the store does with a WHERE clause. */
module Common {

  datatype Option<+T> = None | Some(value: T)

  /** A row of the `products` table. `None` in a column is SQL NULL. */
  datatype Product = Product(id: int, name: Option<string>, about: Option<string>, price: Option<real>)

  /** A value bound to a `$n` placeholder of a parameterised statement. */
  datatype Param = PNull | PInt(i: int) | PReal(r: real) | PText(s: string)

  /** The rows of `s` that satisfy `keep`, in their original order. The
      store promises no order without ORDER BY; the model takes table order
      as the order in which it returns rows. */
  function Filter<T(!new)>(s: seq<T>, keep: T -> bool): (r: seq<T>)
    ensures forall x :: x in r <==> x in s && keep(x)
    ensures |r| <= |s|
  {
    if s == [] then []
    else (if keep(s[0]) then [s[0]] else []) + Filter(s[1..], keep)
  }

  /** Two conditions that agree on every row select the same rows. */
  lemma {:induction false} FilterCongruent<T(!new)>(s: seq<T>, k1: T -> bool, k2: T -> bool)
    requires forall x :: x in s ==> k1(x) == k2(x)
    ensures Filter(s, k1) == Filter(s, k2)
  {
    if s != [] {
      FilterCongruent(s[1..], k1, k2);
    }
  }

  /** A condition every row satisfies selects the whole table. */
  lemma {:induction false} FilterKeepsAll<T(!new)>(s: seq<T>, keep: T -> bool)
    requires forall x :: x in s ==> keep(x)
    ensures Filter(s, keep) == s
  {
    if s != [] {
      FilterKeepsAll(s[1..], keep);
      assert s == [s[0]] + s[1..];
    }
  }

  /** A condition that fails on exactly one element drops just that element. */
  lemma {:induction false} FilterDropsOne<T(!new)>(s: seq<T>, keep: T -> bool, k: nat)
    requires k < |s| && !keep(s[k])
    requires forall i :: 0 <= i < |s| && i != k ==> keep(s[i])
    ensures Filter(s, keep) == s[..k] + s[k + 1..]
  {
    var tail := s[1..];
    if k == 0 {
      forall x | x in tail ensures keep(x) {
        var j :| 0 <= j < |tail| && tail[j] == x;
        assert s[j + 1] == x;
      }
      FilterKeepsAll(tail, keep);
    } else {
      forall i | 0 <= i < |tail| && i != k - 1 ensures keep(tail[i]) {
        assert tail[i] == s[i + 1];
      }
      FilterDropsOne(tail, keep, k - 1);
      assert s[..k] == [s[0]] + tail[..k - 1];
      assert s[k + 1..] == tail[k..];
    }
  }
}
