/**
 The sweep over a list that the tables share (lwtcp/linked_list.h is walked this way
 everywhere): one place after the other is kept, replaced or removed.
 */
module Sweep {
  /** What the sweep has passed, and then what is to become of the rest, is the result. */
  ghost predicate Swept<T>(list: seq<T>, k: nat, rest: seq<T>, result: seq<T>) {
    k <= |list| && list[..k] + rest == result
  }

  lemma Start<T>(list: seq<T>, result: seq<T>)
    ensures list[0..] == list && Swept(list, 0, result, result)
  {
  }

  lemma Next<T>(list: seq<T>, k: nat)
    requires k < |list|
    ensures list[k..] != [] && list[k..][0] == list[k] && list[k..][1..] == list[k + 1..]
  {
  }

  lemma Keeps<T>(list: seq<T>, k: nat, rest: seq<T>, result: seq<T>)
    requires k < |list| && Swept(list, k, [list[k]] + rest, result)
    ensures Swept(list, k + 1, rest, result)
  {
    assert list[..k + 1] + rest == list[..k] + ([list[k]] + rest);
  }

  lemma Sets<T>(list: seq<T>, k: nat, x: T, rest: seq<T>, result: seq<T>)
    requires k < |list| && Swept(list, k, [x] + rest, result)
    ensures Swept(list[k := x], k + 1, rest, result) && list[k := x][k + 1..] == list[k + 1..]
  {
    assert list[k := x][..k + 1] + rest == list[..k] + ([x] + rest);
  }

  lemma Removes<T>(list: seq<T>, k: nat, rest: seq<T>, result: seq<T>)
    requires k < |list| && Swept(list, k, rest, result)
    ensures Swept(list[..k] + list[k + 1..], k, rest, result) && (list[..k] + list[k + 1..])[k..] == list[k + 1..]
  {
    assert (list[..k] + list[k + 1..])[..k] == list[..k];
  }

  lemma End<T>(list: seq<T>, k: nat, result: seq<T>)
    requires k >= |list| && Swept(list, k, [], result)
    ensures list == result
  {
    assert list[..k] + [] == list;
  }
}
