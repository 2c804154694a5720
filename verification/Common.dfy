/** Option values and byte strings shared by the other modules. */
module Common {

  datatype Option<+T> = None | Some(value: T)

  newtype Byte = x: int | 0 <= x < 256

  type Bytes = seq<Byte>

  /** The in-order concatenation of a sequence of sequences. */
  function Flatten<T>(parts: seq<seq<T>>): seq<T>
  {
    if parts == [] then [] else parts[0] + Flatten(parts[1..])
  }

  lemma {:induction false} FlattenConcat<T>(a: seq<seq<T>>, b: seq<seq<T>>)
    ensures Flatten(a + b) == Flatten(a) + Flatten(b)
  {
    if a == [] {
      assert a + b == b;
    } else {
      assert (a + b)[1..] == a[1..] + b;
      FlattenConcat(a[1..], b);
    }
  }

  lemma FlattenSnoc<T>(a: seq<seq<T>>, part: seq<T>)
    ensures Flatten(a + [part]) == Flatten(a) + part
  {
    FlattenConcat(a, [part]);
    assert Flatten([part]) == part + Flatten([]);
  }

  lemma FlattenSlice<T>(parts: seq<seq<T>>, i: nat, j: nat)
    requires i <= j < |parts|
    ensures Flatten(parts[i..j + 1]) == Flatten(parts[i..j]) + parts[j]
  {
    assert parts[i..j + 1] == parts[i..j] + [parts[j]];
    FlattenSnoc(parts[i..j], parts[j]);
  }

  lemma Regroup<T>(a: seq<T>, b: seq<T>, c: seq<T>)
    ensures (a + b) + c == a + (b + c)
  {
  }

  /** Go visits the keys of a map in no particular order. */
  method AnyOf<T>(s: set<T>) returns (x: T)
    requires s != {}
    ensures x in s
  {
    x :| x in s;
  }
}

/** Log entries as the merge pipeline sees them: a timestamp, a tenant, and everything else. */
module LogEntries {

  datatype Entry = Entry(time: int, tenant: string, text: string)

  /** The Go zero value of an entry. */
  const ZERO_ENTRY := Entry(0, "", "")

  /** Entry times never go back. */
  ghost predicate NonDecreasing(es: seq<Entry>)
  {
    forall i, j :: 0 <= i < j < |es| ==> es[i].time <= es[j].time
  }
}
