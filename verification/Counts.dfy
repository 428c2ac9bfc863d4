/** Maps of counts, and the loops over them that the write-behind workers share. */
module Counts {

  type Counts = map<nat, int>

  function Get(m: Counts, k: nat): int {
    if k in m then m[k] else 0
  }

  function Bump(m: Counts, k: nat, n: int): Counts {
    m[k := Get(m, k) + n]
  }

  function Sum(m: Counts, d: Counts): Counts {
    map k | k in m.Keys + d.Keys :: Get(m, k) + Get(d, k)
  }

  /** UPDATE ... SET c = c + delta WHERE id = k, for every k: ids without a row change nothing. */
  function Updated(table: Counts, d: Counts): Counts {
    map k | k in table :: table[k] + Get(d, k)
  }

  /** For id, n := range d: m[id] += n. */
  method AddInto(m: Counts, d: Counts) returns (r: Counts)
    ensures r == Sum(m, d)
  {
    r := m;
    var todo := d.Keys;
    while todo != {}
      invariant todo <= d.Keys
      invariant r.Keys == m.Keys + (d.Keys - todo)
      invariant forall k :: k in r ==> r[k] == Get(m, k) + if k in todo then 0 else Get(d, k)
    {
      var id :| id in todo;
      r := Bump(r, id, d[id]);
      todo := todo - {id};
    }
  }

  /** For id, n := range d: skip zeros, otherwise update row id. */
  method UpdateRows(table: Counts, d: Counts) returns (r: Counts)
    ensures r == Updated(table, d)
  {
    r := table;
    var todo := d.Keys;
    while todo != {}
      invariant todo <= d.Keys
      invariant r.Keys == table.Keys
      invariant forall k :: k in r ==> r[k] == table[k] + if k in todo then 0 else Get(d, k)
    {
      var id :| id in todo;
      todo := todo - {id};
      if d[id] == 0 {
        continue;
      }
      if id in r {
        r := r[id := r[id] + d[id]];
      }
    }
  }
}
