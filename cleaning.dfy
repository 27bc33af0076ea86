/** Cleaning the loaded table: exact duplicate rows are dropped, the first occurrence kept. */
module Cleaning {
  import opened Tables

  /** No row occurs twice. */
  ghost predicate NoDuplicates(s: seq<Row>)
  {
    forall i, j :: 0 <= i < j < |s| ==> s[i] != s[j]
  }

  /** r can be obtained from s by deleting rows, without reordering the rest. */
  ghost predicate IsSubsequence(r: seq<Row>, s: seq<Row>)
    decreases |s|
  {
    if |r| == 0 then true
    else if |s| == 0 then false
    else (r[0] == s[0] && IsSubsequence(r[1..], s[1..])) || IsSubsequence(r, s[1..])
  }

  /** The rows of s not in seen, each only at its first occurrence, scanning from the front. */
  function KeepFirst(s: seq<Row>, seen: set<Row>): seq<Row>
    decreases |s|
  {
    if |s| == 0 then []
    else if s[0] in seen then KeepFirst(s[1..], seen)
    else [s[0]] + KeepFirst(s[1..], seen + {s[0]})
  }

  /** `df.drop_duplicates()`: compares whole rows, keeps the first of each group of equal rows. */
  function DropDuplicates(s: seq<Row>): seq<Row>
  {
    KeepFirst(s, {})
  }

  /** The cleaning stage: the columns are kept, duplicate rows dropped. */
  function CleanData(t: Table): (r: Table)
    ensures r.columns == t.columns
    ensures forall x :: x in r.rows <==> x in t.rows
    ensures |r.rows| <= |t.rows|
  {
    DropDuplicatesSpec(t.rows);
    KeepFirstLength(t.rows, {});
    Table(t.columns, DropDuplicates(t.rows))
  }

  /**
   * A reference definition that reads the rows from the back: row i is kept exactly
   * when it does not occur among rows 0 .. i-1.
   */
  function FirstOccurrences(s: seq<Row>): seq<Row>
  {
    if |s| == 0 then []
    else
      var init := s[..|s| - 1];
      FirstOccurrences(init) + (if s[|s| - 1] in init then [] else [s[|s| - 1]])
  }

  lemma {:induction false} KeepFirstLength(s: seq<Row>, seen: set<Row>)
    ensures |KeepFirst(s, seen)| <= |s|
    decreases |s|
  {
    if |s| > 0 {
      KeepFirstLength(s[1..], if s[0] in seen then seen else seen + {s[0]});
    }
  }

  /** A row is kept exactly when it occurs in s and was not seen before. */
  lemma {:induction false} KeepFirstElements(s: seq<Row>, seen: set<Row>)
    ensures forall x :: x in KeepFirst(s, seen) <==> x in s && x !in seen
    decreases |s|
  {
    if |s| > 0 {
      KeepFirstElements(s[1..], if s[0] in seen then seen else seen + {s[0]});
      assert forall x :: x in s <==> x == s[0] || x in s[1..];
    }
  }

  lemma {:induction false} KeepFirstNoDuplicates(s: seq<Row>, seen: set<Row>)
    ensures NoDuplicates(KeepFirst(s, seen))
    decreases |s|
  {
    if |s| > 0 && s[0] !in seen {
      KeepFirstNoDuplicates(s[1..], seen + {s[0]});
      KeepFirstElements(s[1..], seen + {s[0]});
      var r := KeepFirst(s, seen);
      forall i, j | 0 <= i < j < |r| ensures r[i] != r[j] {
        if i == 0 {
          assert r[j] in KeepFirst(s[1..], seen + {s[0]});
        } else {
          assert r[i] == KeepFirst(s[1..], seen + {s[0]})[i - 1];
          assert r[j] == KeepFirst(s[1..], seen + {s[0]})[j - 1];
        }
      }
    } else if |s| > 0 {
      KeepFirstNoDuplicates(s[1..], seen);
    }
  }

  lemma {:induction false} KeepFirstSubsequence(s: seq<Row>, seen: set<Row>)
    ensures IsSubsequence(KeepFirst(s, seen), s)
    decreases |s|
  {
    if |s| > 0 {
      if s[0] in seen {
        KeepFirstSubsequence(s[1..], seen);
      } else {
        KeepFirstSubsequence(s[1..], seen + {s[0]});
        assert ([s[0]] + KeepFirst(s[1..], seen + {s[0]}))[1..] == KeepFirst(s[1..], seen + {s[0]});
      }
    }
  }

  /** Scanning one more row at the end keeps it exactly when it is new. */
  lemma {:induction false} KeepFirstSnoc(s: seq<Row>, seen: set<Row>, x: Row)
    ensures KeepFirst(s + [x], seen) == KeepFirst(s, seen) + (if x in seen || x in s then [] else [x])
    decreases |s|
  {
    if |s| == 0 {
      assert s + [x] == [x];
    } else {
      assert (s + [x])[0] == s[0] && (s + [x])[1..] == s[1..] + [x];
      var seen' := if s[0] in seen then seen else seen + {s[0]};
      KeepFirstSnoc(s[1..], seen', x);
      assert x in s <==> x == s[0] || x in s[1..];
    }
  }

  /** Dropping duplicates from the front agrees with the reference definition. */
  lemma {:induction false} DropDuplicatesIsFirstOccurrences(s: seq<Row>)
    ensures DropDuplicates(s) == FirstOccurrences(s)
    decreases |s|
  {
    if |s| > 0 {
      var init := s[..|s| - 1];
      assert s == init + [s[|s| - 1]];
      DropDuplicatesIsFirstOccurrences(init);
      KeepFirstSnoc(init, {}, s[|s| - 1]);
    }
  }

  /**
   * The cleaned rows hold no duplicate, are the input rows in their original order
   * with some deleted, and hold every distinct input row.
   */
  lemma DropDuplicatesSpec(s: seq<Row>)
    ensures NoDuplicates(DropDuplicates(s))
    ensures IsSubsequence(DropDuplicates(s), s)
    ensures forall x :: x in DropDuplicates(s) <==> x in s
  {
    KeepFirstNoDuplicates(s, {});
    KeepFirstSubsequence(s, {});
    KeepFirstElements(s, {});
  }

  /** A sequence without duplicates none of whose rows was seen is kept whole. */
  lemma {:induction false} KeepFirstOfDistinct(s: seq<Row>, seen: set<Row>)
    requires NoDuplicates(s)
    requires forall x :: x in s ==> x !in seen
    ensures KeepFirst(s, seen) == s
    decreases |s|
  {
    if |s| > 0 {
      assert forall x :: x in s[1..] ==> x != s[0] by {
        forall x | x in s[1..] ensures x != s[0] {
          var k :| 0 <= k < |s[1..]| && s[1..][k] == x;
          assert s[k + 1] == x;
        }
      }
      KeepFirstOfDistinct(s[1..], seen + {s[0]});
    }
  }

  /** Dropping duplicates a second time changes nothing. */
  lemma DropDuplicatesIdempotent(s: seq<Row>)
    ensures DropDuplicates(DropDuplicates(s)) == DropDuplicates(s)
  {
    KeepFirstNoDuplicates(s, {});
    KeepFirstOfDistinct(DropDuplicates(s), {});
  }

  /** A table without duplicate rows comes out of cleaning unchanged; no rows give no rows. */
  lemma CleanDataKeepsDistinct(t: Table)
    requires NoDuplicates(t.rows)
    ensures CleanData(t) == t
  {
    KeepFirstOfDistinct(t.rows, {});
  }
}
