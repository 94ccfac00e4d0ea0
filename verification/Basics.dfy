/** Machine integers, options and sequence helpers shared by the models. */
module Basics {

  type byte = x: int | 0 <= x < 0x100
  type u16 = x: int | 0 <= x < 0x1_0000
  type u32 = x: int | 0 <= x < 0x1_0000_0000

  const TWO_TO_16: int := 0x1_0000
  const TWO_TO_32: int := 0x1_0000_0000

  datatype Option<+T> = None | Some(value: T)

  function Min(a: int, b: int): int {
    if a < b then a else b
  }

  /** The value of a byte counter after one increment. */
  function Next(seq8: byte): byte {
    (seq8 + 1) % 0x100
  }

  function Flatten<T>(parts: seq<seq<T>>): seq<T> {
    if parts == [] then [] else parts[0] + Flatten(parts[1..])
  }

  lemma FlattenNothing<T>()
    ensures Flatten<T>([]) == []
  {
  }

  lemma ConcatAssociates<T>(a: seq<T>, b: seq<T>, c: seq<T>)
    ensures a + (b + c) == (a + b) + c
  {
  }

  lemma {:induction false} FlattenConcat<T>(a: seq<seq<T>>, b: seq<seq<T>>)
    ensures Flatten(a + b) == Flatten(a) + Flatten(b)
  {
    if a == [] {
      assert a + b == b;
    } else {
      var rest := a[1..] + b;
      FlattenConcat(a[1..], b);
      assert (a + b)[1..] == rest && (a + b)[0] == a[0];
      ConcatAssociates(a[0], Flatten(a[1..]), Flatten(b));
    }
  }

  /** Appending one part appends its elements. */
  lemma FlattenSnoc<T>(a: seq<seq<T>>, p: seq<T>)
    ensures Flatten(a + [p]) == Flatten(a) + p
  {
    FlattenConcat(a, [p]);
    assert [p][1..] == [];
    assert Flatten([p]) == p + Flatten([p][1..]);
    assert Flatten([p]) == p;
  }

  /** A list of parts splits at any point. */
  lemma FlattenSplit<T>(parts: seq<seq<T>>, k: nat)
    requires k <= |parts|
    ensures Flatten(parts) == Flatten(parts[..k]) + Flatten(parts[k..])
  {
    FlattenConcat(parts[..k], parts[k..]);
    assert parts[..k] + parts[k..] == parts;
  }
}
