/** A repository table: rows keyed by id, plus the order in which `findAll`
    returns them. */
module Tables {
  import opened Wrappers
  import Seqs

  datatype Table<E> = Table(rows: map<int, E>, order: seq<int>)

  ghost predicate Distinct(xs: seq<int>) {
    forall i, j :: 0 <= i < j < |xs| ==> xs[i] != xs[j]
  }

  /** Every stored key appears exactly once in the order. */
  ghost predicate Valid<E>(t: Table<E>) {
    && Distinct(t.order)
    && (forall k :: k in t.rows <==> k in t.order)
  }

  function Empty<E>(): (t: Table<E>)
    ensures Valid(t)
  {
    Table(map[], [])
  }

  /** `findById`. */
  function Find<E>(t: Table<E>, k: int): (r: Option<E>)
    ensures r.Some? <==> k in t.rows
    ensures r.Some? ==> r.value == t.rows[k]
  {
    if k in t.rows then Some(t.rows[k]) else None
  }

  /** The rows at the given keys, in the order of the keys. */
  function RowsAt<E>(rows: map<int, E>, keys: seq<int>): (r: seq<E>)
    requires forall i :: 0 <= i < |keys| ==> keys[i] in rows
    ensures |r| == |keys|
    ensures forall i :: 0 <= i < |keys| ==> r[i] == rows[keys[i]]
  {
    if |keys| == 0 then []
    else [rows[keys[0]]] + RowsAt(rows, keys[1..])
  }

  /** `findAll`: the stored rows in table order. */
  function Values<E>(t: Table<E>): (r: seq<E>)
    requires Valid(t)
    ensures |r| == |t.order|
    ensures forall i :: 0 <= i < |t.order| ==> t.order[i] in t.rows && r[i] == t.rows[t.order[i]]
  {
    assert forall i :: 0 <= i < |t.order| ==> t.order[i] in t.order;
    RowsAt(t.rows, t.order)
  }

  /** Writes row `k`: an existing row is replaced in place, a new one goes
      last. Every other row is untouched. */
  function Put<E>(t: Table<E>, k: int, e: E): (r: Table<E>)
    requires Valid(t)
    ensures Valid(r)
    ensures r.rows == t.rows[k := e]
    ensures k in t.rows ==> r.order == t.order
    ensures k !in t.rows ==> r.order == t.order + [k]
  {
    if k in t.rows then Table(t.rows[k := e], t.order)
    else Table(t.rows[k := e], t.order + [k])
  }

  /** Writing a row back unchanged leaves the table as it was. */
  lemma PutSame<E>(t: Table<E>, k: int)
    requires Valid(t) && k in t.rows
    ensures Put(t, k, t.rows[k]) == t
  {
    assert t.rows[k := t.rows[k]] == t.rows;
  }

  /** Filtering keeps distinctness. */
  lemma {:induction false} FilterDistinct(xs: seq<int>, p: int -> bool)
    requires Distinct(xs)
    ensures Distinct(Seqs.Filter(xs, p))
  {
    if |xs| > 0 {
      FilterDistinct(xs[1..], p);
      var tail := Seqs.Filter(xs[1..], p);
      assert xs[0] !in xs[1..];
      assert xs[0] !in tail;
      assert xs == [xs[0]] + xs[1..];
    }
  }

  /** Deletes every row whose key fails `keep`; the survivors keep their order. */
  function Retain<E>(t: Table<E>, keep: int -> bool): (r: Table<E>)
    requires Valid(t)
    ensures Valid(r)
    ensures forall k :: k in r.rows <==> k in t.rows && keep(k)
    ensures forall k :: k in r.rows ==> r.rows[k] == t.rows[k]
    ensures r.order == Seqs.Filter(t.order, keep)
  {
    var rows := map k | k in t.rows && keep(k) :: t.rows[k];
    var order := Seqs.Filter(t.order, keep);
    FilterDistinct(t.order, keep);
    Table(rows, order)
  }

  /** `deleteById`: removes row `k` and nothing else. */
  function Remove<E>(t: Table<E>, k: int): (r: Table<E>)
    requires Valid(t)
    ensures Valid(r)
    ensures r.rows == t.rows - {k}
    ensures r.order == Seqs.Filter(t.order, j => j != k)
  {
    Retain(t, j => j != k)
  }

  /** One more than every element of `xs`. */
  function Above(xs: seq<int>): (r: int)
    ensures forall i :: 0 <= i < |xs| ==> xs[i] < r
  {
    if |xs| == 0 then 0
    else
      var m := Above(xs[1..]);
      if xs[0] < m then m else xs[0] + 1
  }

  /** A key no row of `t` uses: what the identity column hands out next. */
  function NextKey<E>(t: Table<E>): (k: int)
    requires Valid(t)
    ensures k !in t.rows
  {
    Above(t.order)
  }
}
