/**
 The two column walks the schedule scanners are built from, independent of
 what a column holds.

 `ConcatScan` visits columns `col..last` and concatenates what each yields,
 stopping at the first error (the regular scanner). `DedupScan` first reads
 each column's key and skips a column whose key an earlier column already
 had, the `done` set of the university-day scanners; only the first column
 with a key contributes, and it contributes under that key.
 */
module Columns {
  import opened Outcomes

  // ---------------------------------------------------------------------------
  // Every column

  function ConcatScan<R>(column: int -> Result<seq<R>>, col: int, last: int): Result<seq<R>>
    decreases last - col
  {
    if col > last then Ok([])
    else
      var here :- column(col);
      var rest :- ConcatScan(column, col + 1, last);
      Ok(here + rest)
  }

  /** The walk gets through exactly when every column does. */
  lemma {:induction false} ConcatScanSucceeds<R>(column: int -> Result<seq<R>>, col: int, last: int)
    ensures ConcatScan(column, col, last).Ok? <==> forall c :: col <= c <= last ==> column(c).Ok?
    decreases last - col
  {
    if col <= last {
      ConcatScanSucceeds(column, col + 1, last);
    }
  }

  /** Everything the walk yields was yielded by one of its columns. */
  lemma {:induction false} ConcatScanSound<R>(column: int -> Result<seq<R>>, col: int, last: int)
    requires ConcatScan(column, col, last).Ok?
    ensures forall r :: r in ConcatScan(column, col, last).value ==>
              exists c :: col <= c <= last && column(c).Ok? && r in column(c).value
    decreases last - col
  {
    if col <= last {
      ConcatScanSound(column, col + 1, last);
    }
  }

  /** Everything a column yields is in the walk. */
  lemma {:induction false} ConcatScanComplete<R>(column: int -> Result<seq<R>>, col: int, last: int, c: int)
    requires ConcatScan(column, col, last).Ok?
    requires col <= c <= last
    ensures column(c).Ok?
    ensures forall r :: r in column(c).value ==> r in ConcatScan(column, col, last).value
    decreases last - col
  {
    if c > col {
      ConcatScanComplete(column, col + 1, last, c);
    }
  }

  // ---------------------------------------------------------------------------
  // First column per key

  /** The keys of the columns `lo..hi-1` that read without error. */
  function KeysBefore<K(==, !new)>(key: int -> Result<K>, lo: int, hi: int): (ks: set<K>)
    ensures forall k :: k in ks <==> exists c :: lo <= c < hi && key(c) == Ok(k)
    decreases hi - lo
  {
    if hi <= lo then {}
    else
      var prev := KeysBefore(key, lo, hi - 1);
      match key(hi - 1)
      case Ok(k) => prev + {k}
      case Err(_) => prev
  }

  /** Column `c` of `lo..last` has key `k` and no earlier column of the range has it. */
  predicate FirstKeyed<K(==, !new)>(key: int -> Result<K>, lo: int, last: int, c: int, k: K) {
    && lo <= c <= last
    && key(c) == Ok(k)
    && k !in KeysBefore(key, lo, c)
  }

  /**
   The walk from column `col` on, `seen` holding the keys already taken:
   the key is read first; a taken key skips the column, a new one reads it.
   */
  function DedupScan<K(==, !new), R>(key: int -> Result<K>, column: (int, K) -> Result<seq<R>>, col: int, last: int, seen: set<K>): Result<seq<R>>
    decreases last - col
  {
    if col > last then Ok([])
    else
      var k :- key(col);
      if k in seen then DedupScan(key, column, col + 1, last, seen)
      else
        var mine :- column(col, k);
        var rest :- DedupScan(key, column, col + 1, last, seen + {k});
        Ok(mine + rest)
  }

  /**
   The walk gets through exactly when every key reads and every column
   that is the first with its key reads too.
   */
  lemma {:induction false} DedupScanSucceeds<K(!new), R>(key: int -> Result<K>, column: (int, K) -> Result<seq<R>>, lo: int, col: int, last: int, seen: set<K>)
    requires lo <= col && seen == KeysBefore(key, lo, col)
    ensures DedupScan(key, column, col, last, seen).Ok? <==>
            forall c :: col <= c <= last ==> ColumnReads(key, column, lo, last, c)
    decreases last - col
  {
    if col <= last && key(col).Ok? {
      var k := key(col).value;
      assert KeysBefore(key, lo, col + 1) == seen + {k};
      assert FirstKeyed(key, lo, last, col, k) <==> k !in seen;
      var next := if k in seen then seen else seen + {k};
      DedupScanSucceeds(key, column, lo, col + 1, last, next);
      assert (forall c :: col <= c <= last ==> ColumnReads(key, column, lo, last, c)) <==>
             ColumnReads(key, column, lo, last, col) && forall c :: col + 1 <= c <= last ==> ColumnReads(key, column, lo, last, c);
    } else if col <= last {
      assert !ColumnReads(key, column, lo, last, col);
    }
  }

  /** Column `c`'s key reads, and so does the column itself when it is the first with that key. */
  predicate ColumnReads<K(==, !new), R>(key: int -> Result<K>, column: (int, K) -> Result<seq<R>>, lo: int, last: int, c: int) {
    key(c).Ok? && (FirstKeyed(key, lo, last, c, key(c).value) ==> column(c, key(c).value).Ok?)
  }

  /** Everything the walk yields was yielded, under its key, by the first column with that key. */
  lemma {:induction false} DedupScanSound<K(!new), R>(key: int -> Result<K>, column: (int, K) -> Result<seq<R>>, lo: int, col: int, last: int, seen: set<K>)
    requires lo <= col && seen == KeysBefore(key, lo, col)
    requires DedupScan(key, column, col, last, seen).Ok?
    ensures forall r :: r in DedupScan(key, column, col, last, seen).value ==>
              exists c, k :: col <= c && FirstKeyed(key, lo, last, c, k) && column(c, k).Ok? && r in column(c, k).value
    decreases last - col
  {
    if col <= last {
      var k := key(col).value;
      assert KeysBefore(key, lo, col + 1) == seen + {k};
      if k in seen {
        DedupScanSound(key, column, lo, col + 1, last, seen);
      } else {
        DedupScanSound(key, column, lo, col + 1, last, seen + {k});
        assert FirstKeyed(key, lo, last, col, k);
      }
    }
  }

  /** Everything the first column with a key yields is in the walk. */
  lemma {:induction false} DedupScanComplete<K(!new), R>(key: int -> Result<K>, column: (int, K) -> Result<seq<R>>, lo: int, col: int, last: int, seen: set<K>,
                                                   c: int, k: K)
    requires lo <= col <= c && seen == KeysBefore(key, lo, col)
    requires DedupScan(key, column, col, last, seen).Ok?
    requires FirstKeyed(key, lo, last, c, k)
    ensures column(c, k).Ok?
    ensures forall r :: r in column(c, k).value ==> r in DedupScan(key, column, col, last, seen).value
    decreases last - col
  {
    var h := key(col).value;
    assert KeysBefore(key, lo, col + 1) == seen + {h};
    if h in seen {
      DedupScanComplete(key, column, lo, col + 1, last, seen, c, k);
    } else if c > col {
      DedupScanComplete(key, column, lo, col + 1, last, seen + {h}, c, k);
    }
  }

  /**
   Within each key, `num` strictly increases along `rs`: two elements with
   the same `tag` come in increasing `num` order, so none repeats.
   */
  predicate OrderedWithinTag<K(==), R(==)>(rs: seq<R>, tag: R -> K, num: R -> int) {
    forall i, j :: 0 <= i < j < |rs| && tag(rs[i]) == tag(rs[j]) ==> num(rs[i]) < num(rs[j])
  }

  /** Every element of `rs` carries tag `k`, and `num` strictly increases along `rs`. */
  predicate TaggedAscending<K(==), R(==)>(rs: seq<R>, tag: R -> K, num: R -> int, k: K) {
    && (forall i :: 0 <= i < |rs| ==> tag(rs[i]) == k)
    && (forall i, j :: 0 <= i < j < |rs| ==> num(rs[i]) < num(rs[j]))
  }

  lemma OrderedWithinTagConcat<K, R>(mine: seq<R>, rest: seq<R>, tag: R -> K, num: R -> int, k: K)
    requires TaggedAscending(mine, tag, num, k)
    requires forall r :: r in rest ==> tag(r) != k
    requires OrderedWithinTag(rest, tag, num)
    ensures OrderedWithinTag(mine + rest, tag, num)
  {
    var rs := mine + rest;
    forall i, j | 0 <= i < |mine| <= j < |rs|
      ensures tag(rs[i]) != tag(rs[j])
    {
      assert rs[i] == mine[i] && rs[j] == rest[j - |mine|];
      assert rest[j - |mine|] in rest;
    }
    forall i, j | 0 <= i < j < |rs| && tag(rs[i]) == tag(rs[j])
      ensures num(rs[i]) < num(rs[j])
    {
      if j < |mine| {
        assert rs[i] == mine[i] && rs[j] == mine[j];
      } else if |mine| <= i {
        assert rs[i] == rest[i - |mine|] && rs[j] == rest[j - |mine|];
      }
    }
  }

  /** Everything the walk yields is tagged with a key not yet seen. */
  lemma {:induction false} DedupScanFresh<K(!new), R>(key: int -> Result<K>, column: (int, K) -> Result<seq<R>>, tag: R -> K, num: R -> int,
                                                col: int, last: int, seen: set<K>)
    requires DedupScan(key, column, col, last, seen).Ok?
    requires forall c :: col <= c <= last && key(c).Ok? && column(c, key(c).value).Ok? ==>
               TaggedAscending(column(c, key(c).value).value, tag, num, key(c).value)
    ensures forall r :: r in DedupScan(key, column, col, last, seen).value ==> tag(r) !in seen
    decreases last - col
  {
    if col <= last {
      var k := key(col).value;
      if k in seen {
        DedupScanFresh(key, column, tag, num, col + 1, last, seen);
      } else {
        DedupScanFresh(key, column, tag, num, col + 1, last, seen + {k});
        var mine := column(col, k).value;
        assert TaggedAscending(mine, tag, num, k);
        forall r | r in mine ensures tag(r) == k {
          var i :| 0 <= i < |mine| && mine[i] == r;
        }
      }
    }
  }

  /**
   When each column yields elements tagged with its key, in increasing
   `num` order, the walk never yields two elements with the same tag and
   the same `num`: a repeated key contributes nothing.
   */
  lemma {:induction false} DedupScanOrdered<K(!new), R>(key: int -> Result<K>, column: (int, K) -> Result<seq<R>>, tag: R -> K, num: R -> int,
                                                  col: int, last: int, seen: set<K>)
    requires DedupScan(key, column, col, last, seen).Ok?
    requires forall c :: col <= c <= last && key(c).Ok? && column(c, key(c).value).Ok? ==>
               TaggedAscending(column(c, key(c).value).value, tag, num, key(c).value)
    ensures OrderedWithinTag(DedupScan(key, column, col, last, seen).value, tag, num)
    decreases last - col
  {
    if col <= last {
      var k := key(col).value;
      if k in seen {
        DedupScanOrdered(key, column, tag, num, col + 1, last, seen);
      } else {
        var mine := column(col, k).value;
        var rest := DedupScan(key, column, col + 1, last, seen + {k}).value;
        DedupScanOrdered(key, column, tag, num, col + 1, last, seen + {k});
        DedupScanFresh(key, column, tag, num, col + 1, last, seen + {k});
        OrderedWithinTagConcat(mine, rest, tag, num, k);
      }
    }
  }
}
