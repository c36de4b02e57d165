/** Vocabulary shared by every component: options, bytes and flattening of lists of byte strings. */
module Common {

  datatype Option<+T> = None | Some(value: T)

  /** An octet, as stored in a `std::byte` or an unsigned `char`. */
  type Byte = x: int | 0 <= x < 256

  /** What an input object reports: an error, or the bytes it stored. */
  datatype ReadResult = ReadError | ReadOk(bytes: seq<Byte>)

  function Min(a: nat, b: nat): nat {
    if a <= b then a else b
  }

  function Max(a: nat, b: nat): nat {
    if a <= b then b else a
  }

  function Last<T>(s: seq<T>): T
    requires s != []
  {
    s[|s| - 1]
  }

  function Flatten<T>(ss: seq<seq<T>>): seq<T> {
    if ss == [] then [] else ss[0] + Flatten(ss[1..])
  }

  lemma {:induction false} FlattenConcat<T>(a: seq<seq<T>>, b: seq<seq<T>>)
    ensures Flatten(a + b) == Flatten(a) + Flatten(b)
  {
    if a == [] {
      assert a + b == b;
    } else {
      assert (a + b)[1..] == a[1..] + b;
      FlattenConcat(a[1..], b);
    }
  }

  lemma FlattenSnoc<T>(ss: seq<seq<T>>, s: seq<T>)
    ensures Flatten(ss + [s]) == Flatten(ss) + s
  {
    FlattenConcat(ss, [s]);
    assert Flatten([s]) == s;
  }

  /** `sub` arises from `all` by leaving out some elements and keeping the order of the others. */
  predicate IsSublist<T(==)>(sub: seq<T>, all: seq<T>) {
    if all == [] then sub == []
    else (sub != [] && sub[0] == all[0] && IsSublist(sub[1..], all[1..])) || IsSublist(sub, all[1..])
  }
}
