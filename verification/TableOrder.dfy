/** Tables are visited in the order of their names, schema first. */
module TableOrder {
  import opened Consolidate

  lemma {:induction false} StrLessTotal(a: string, b: string)
    ensures a == b || StrLess(a, b) || StrLess(b, a)
    ensures !(StrLess(a, b) && StrLess(b, a))
    ensures !StrLess(a, a)
  {
    if a != [] {
      if b != [] {
        StrLessTotal(a[1..], b[1..]);
        assert a == [a[0]] + a[1..] && b == [b[0]] + b[1..];
      } else {
        StrLessTotal(a[1..], b);
      }
    }
  }

  lemma {:induction false} StrLessTransitive(a: string, b: string, c: string)
    requires StrLess(a, b) && StrLess(b, c)
    ensures StrLess(a, c)
  {
    if a != [] && b[0] == a[0] && c[0] == b[0] {
      StrLessTransitive(a[1..], b[1..], c[1..]);
    }
  }

  lemma KeyLessTotal(a: TableKey, b: TableKey)
    ensures a == b || KeyLess(a, b) || KeyLess(b, a)
    ensures !(KeyLess(a, b) && KeyLess(b, a))
    ensures !KeyLess(a, a)
  {
    hide StrLess;
    StrLessTotal(a.0, b.0);
    StrLessTotal(a.1, b.1);
  }

  lemma KeyLessTransitive(a: TableKey, b: TableKey, c: TableKey)
    requires KeyLess(a, b) && KeyLess(b, c)
    ensures KeyLess(a, c)
  {
    hide StrLess;
    if StrLess(a.0, b.0) && StrLess(b.0, c.0) {
      StrLessTransitive(a.0, b.0, c.0);
    } else if a.0 == b.0 && b.0 == c.0 {
      StrLessTransitive(a.1, b.1, c.1);
    }
  }

  ghost predicate Ascending(keys: seq<TableKey>) {
    forall i, j :: 0 <= i < j < |keys| ==> KeyLess(keys[i], keys[j])
  }

  lemma {:induction false} InsertKeyAscending(keys: seq<TableKey>, k: TableKey)
    requires Ascending(keys)
    ensures Ascending(InsertKey(keys, k))
  {
    hide KeyLess;
    if keys != [] {
      KeyLessTotal(k, keys[0]);
      if KeyLess(k, keys[0]) {
        forall j | 0 < j < |keys|
          ensures KeyLess(k, keys[j])
        {
          KeyLessTransitive(k, keys[0], keys[j]);
        }
      } else if keys[0] != k {
        var rest := InsertKey(keys[1..], k);
        InsertKeyAscending(keys[1..], k);
        InsertKeyElems(keys[1..], k);
        forall j | 0 <= j < |rest|
          ensures KeyLess(keys[0], rest[j])
        {
          assert rest[j] in rest;
        }
      }
    }
  }

  lemma AscendingTail(keys: seq<TableKey>)
    requires keys != [] && Ascending(keys)
    ensures Ascending(keys[1..]) && keys[0] !in keys[1..]
  {
    hide KeyLess;
    if keys[0] in keys[1..] {
      var j :| 0 <= j < |keys[1..]| && keys[1..][j] == keys[0];
      assert KeyLess(keys[0], keys[j + 1]);
      KeyLessTotal(keys[0], keys[0]);
    }
  }

  lemma AscendingApart(keys: seq<TableKey>, n: nat)
    requires n < |keys| && Ascending(keys)
    ensures keys[n] !in keys[..n]
  {
    hide KeyLess;
    if keys[n] in keys[..n] {
      var j :| 0 <= j < n && keys[j] == keys[n];
      KeyLessTotal(keys[j], keys[n]);
    }
  }

  lemma AscendingInit(keys: seq<TableKey>)
    requires keys != [] && Ascending(keys)
    ensures var n := |keys| - 1;
            && Ascending(keys[..n]) && keys[n] !in keys[..n]
            && forall k :: k in keys[..n] ==> KeyLess(k, keys[n])
  {
    hide KeyLess;
    AscendingApart(keys, |keys| - 1);
  }

  // ---- what the order is ---------------------------------------------------------

  /** Dictionary order: up to some place the two agree, and there `a` ends or has
      the smaller character. */
  ghost predicate LexLess(a: string, b: string) {
    exists k: nat :: DiffersAt(a, b, k) && (k == |a| || a[k] < b[k])
  }

  predicate DiffersAt(a: string, b: string, k: nat) { k <= |a| && k < |b| && a[..k] == b[..k] }

  ghost predicate TableBefore(schema: string, table: string, schema': string, table': string) {
    LexLess(schema, schema') || (schema == schema' && LexLess(table, table'))
  }

  lemma {:induction false} LexLessIsStrLess(a: string, b: string, k: nat)
    requires DiffersAt(a, b, k) && (k == |a| || a[k] < b[k])
    ensures StrLess(a, b)
  {
    if k > 0 {
      assert a[0] == a[..k][0] == b[..k][0] == b[0];
      assert a[1..][..k - 1] == a[..k][1..] && b[1..][..k - 1] == b[..k][1..];
      LexLessIsStrLess(a[1..], b[1..], k - 1);
    }
  }

  lemma {:induction false} StrLessIsLexLess(a: string, b: string)
    requires StrLess(a, b)
    ensures LexLess(a, b)
  {
    if a == [] || a[0] < b[0] {
      assert DiffersAt(a, b, 0);
    } else {
      StrLessIsLexLess(a[1..], b[1..]);
      var k: nat :| DiffersAt(a[1..], b[1..], k) && (k == |a[1..]| || a[1..][k] < b[1..][k]);
      assert a[..k + 1] == [a[0]] + a[1..][..k] && b[..k + 1] == [b[0]] + b[1..][..k];
      assert DiffersAt(a, b, k + 1);
    }
  }

  lemma StrLessMeans(a: string, b: string)
    ensures StrLess(a, b) <==> LexLess(a, b)
  {
    hide StrLess;
    if LexLess(a, b) {
      var k: nat :| DiffersAt(a, b, k) && (k == |a| || a[k] < b[k]);
      LexLessIsStrLess(a, b, k);
    }
    if StrLess(a, b) {
      StrLessIsLexLess(a, b);
    }
  }

  lemma KeyLessMeans(a: TableKey, b: TableKey)
    ensures KeyLess(a, b) <==> TableBefore(a.0, a.1, b.0, b.1)
  {
    hide StrLess, LexLess;
    StrLessMeans(a.0, b.0);
    StrLessMeans(a.1, b.1);
  }
}
