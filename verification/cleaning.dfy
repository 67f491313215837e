/** `clean_data_posts` (identical in src/utils.py and src/utils/utils.py):
    drop repeated ids keeping the first row, drop short texts, then blank
    out commas and line breaks in the texts. */
module Cleaning {
  import opened Results
  import opened Text
  import opened Frames
  import opened StringUtils

  /** `MIX_CARACTERES`: the shortest post text that is kept. */
  const MinCharacters := 100

  predicate HasColumn(rows: seq<Row>, col: string) {
    forall k | 0 <= k < |rows| :: col in rows[k]
  }

  /** Rows drawn from `rows` carry every column `rows` all carry. */
  lemma MembersHaveColumn(out: seq<Row>, rows: seq<Row>, col: string)
    requires HasColumn(rows, col) && forall r :: r in out ==> r in rows
    ensures HasColumn(out, col)
  {
    forall k | 0 <= k < |out| ensures col in out[k] {
      assert out[k] in rows;
    }
  }

  /** The values a column takes across the rows. */
  function Ids(rows: seq<Row>, col: string): set<Cell>
    requires HasColumn(rows, col)
  {
    set k | 0 <= k < |rows| :: rows[k][col]
  }

  /** No two rows share a value in the column. */
  predicate UniqueIn(rows: seq<Row>, col: string)
    requires HasColumn(rows, col)
  {
    forall a, b | 0 <= a < b < |rows| :: rows[a][col] != rows[b][col]
  }

  /** No row's value in the column is in `seen`. */
  predicate Avoids(rows: seq<Row>, col: string, seen: set<Cell>)
    requires HasColumn(rows, col)
  {
    forall k | 0 <= k < |rows| :: rows[k][col] !in seen
  }

  /** Row `i` is the first one carrying its id. */
  predicate FirstOccurrence(rows: seq<Row>, col: string, i: int)
    requires HasColumn(rows, col) && 0 <= i < |rows|
  {
    forall j | 0 <= j < i :: rows[j][col] != rows[i][col]
  }

  /** `drop_duplicates(subset=col)`, with `seen` the ids already met. */
  function DedupeFrom(rows: seq<Row>, col: string, seen: set<Cell>): (out: seq<Row>)
    requires HasColumn(rows, col)
    ensures HasColumn(out, col)
    ensures forall r :: r in out ==> r in rows
    ensures |out| <= |rows|
    decreases |rows|
  {
    if rows == [] then []
    else if rows[0][col] in seen then DedupeFrom(rows[1..], col, seen)
    else [rows[0]] + DedupeFrom(rows[1..], col, seen + {rows[0][col]})
  }

  /** `drop_duplicates(subset=col)`: keep the first row of every id. */
  function DropDuplicates(rows: seq<Row>, col: string): (out: seq<Row>)
    requires HasColumn(rows, col)
    ensures HasColumn(out, col) && IsSubsequence(out, rows) && UniqueIn(out, col)
  {
    DedupeSubsequence(rows, col, {});
    DedupeDistinct(rows, col, {});
    DedupeFrom(rows, col, {})
  }

  /** Deduplication keeps the original order. */
  lemma {:induction false} DedupeSubsequence(rows: seq<Row>, col: string, seen: set<Cell>)
    requires HasColumn(rows, col)
    ensures IsSubsequence(DedupeFrom(rows, col, seen), rows)
    decreases |rows|
  {
    if rows != [] {
      DedupeSubsequence(rows[1..], col, if rows[0][col] in seen then seen else seen + {rows[0][col]});
      assert [rows[0]] + rows[1..] == rows;
      if rows[0][col] in seen {
        SubsequenceSkip(DedupeFrom(rows[1..], col, seen), rows[0], rows[1..]);
      } else {
        SubsequenceCons(rows[0], DedupeFrom(rows[1..], col, seen + {rows[0][col]}), rows[1..]);
      }
    }
  }

  /** No two kept rows share an id, and no kept id was already seen. */
  lemma {:induction false} DedupeDistinct(rows: seq<Row>, col: string, seen: set<Cell>)
    requires HasColumn(rows, col)
    ensures Avoids(DedupeFrom(rows, col, seen), col, seen)
    ensures UniqueIn(DedupeFrom(rows, col, seen), col)
    decreases |rows|
  {
    if rows != [] {
      var x := rows[0][col];
      var out := DedupeFrom(rows, col, seen);
      if x in seen {
        DedupeDistinct(rows[1..], col, seen);
        assert out == DedupeFrom(rows[1..], col, seen);
      } else {
        DedupeDistinct(rows[1..], col, seen + {x});
        var rest := DedupeFrom(rows[1..], col, seen + {x});
        assert out == [rows[0]] + rest;
        assert Avoids(rest, col, seen + {x}) && UniqueIn(rest, col);
        forall k | 0 <= k < |out| ensures out[k][col] !in seen {
          if k > 0 {
            assert out[k] == rest[k - 1];
            assert rest[k - 1][col] !in seen + {x};
          }
        }
        forall a, b | 0 <= a < b < |out| ensures out[a][col] != out[b][col] {
          assert out[b] == rest[b - 1];
          assert rest[b - 1][col] !in seen + {x};
          if a > 0 {
            assert out[a] == rest[a - 1];
          }
        }
      }
    }
  }

  /** The first row of every id not yet seen is kept. */
  lemma {:induction false} DedupeKeepsFirst(rows: seq<Row>, col: string, seen: set<Cell>, i: int)
    requires HasColumn(rows, col) && 0 <= i < |rows|
    requires rows[i][col] !in seen && FirstOccurrence(rows, col, i)
    ensures rows[i] in DedupeFrom(rows, col, seen)
    decreases |rows|
  {
    var x := rows[0][col];
    if i > 0 {
      assert rows[0][col] != rows[i][col];
      var seen' := if x in seen then seen else seen + {x};
      assert rows[1..][i - 1] == rows[i];
      assert FirstOccurrence(rows[1..], col, i - 1) by {
        forall j | 0 <= j < i - 1 ensures rows[1..][j][col] != rows[1..][i - 1][col] {
          assert rows[1..][j] == rows[j + 1];
        }
      }
      DedupeKeepsFirst(rows[1..], col, seen', i - 1);
    }
  }

  /** Every kept row is the first row of its id, and that id was not seen. */
  lemma {:induction false} DedupeOnlyFirsts(rows: seq<Row>, col: string, seen: set<Cell>, r: Row)
    requires HasColumn(rows, col) && r in DedupeFrom(rows, col, seen)
    ensures exists i | 0 <= i < |rows| :: rows[i] == r && rows[i][col] !in seen && FirstOccurrence(rows, col, i)
    decreases |rows|
  {
    var x := rows[0][col];
    if x !in seen && r == rows[0] {
      assert FirstOccurrence(rows, col, 0);
    } else {
      var seen' := if x in seen then seen else seen + {x};
      assert r in DedupeFrom(rows[1..], col, seen');
      DedupeOnlyFirsts(rows[1..], col, seen', r);
      var i :| 0 <= i < |rows[1..]| && rows[1..][i] == r && rows[1..][i][col] !in seen'
        && FirstOccurrence(rows[1..], col, i);
      assert rows[i + 1] == r;
      assert FirstOccurrence(rows, col, i + 1) by {
        forall j | 0 <= j < i + 1 ensures rows[j][col] != rows[i + 1][col] {
          if j > 0 {
            assert rows[1..][j - 1] == rows[j];
          }
        }
      }
    }
  }

  /** The ids of a non-empty table: the first row's id and the rest's. */
  lemma IdsCons(rows: seq<Row>, col: string)
    requires HasColumn(rows, col) && rows != []
    ensures Ids(rows, col) == {rows[0][col]} + Ids(rows[1..], col)
  {
    var tail := rows[1..];
    forall v | v in Ids(rows, col) ensures v in {rows[0][col]} + Ids(tail, col) {
      var k :| 0 <= k < |rows| && rows[k][col] == v;
      if k > 0 {
        assert tail[k - 1] == rows[k];
      }
    }
    forall v | v in Ids(tail, col) ensures v in Ids(rows, col) {
      var k :| 0 <= k < |tail| && tail[k][col] == v;
      assert rows[k + 1] == tail[k];
    }
  }

  /** As many rows are kept as there are distinct unseen ids. */
  lemma {:induction false} DedupeCount(rows: seq<Row>, col: string, seen: set<Cell>)
    requires HasColumn(rows, col)
    ensures |DedupeFrom(rows, col, seen)| == |Ids(rows, col) - seen|
    decreases |rows|
  {
    if rows == [] {
      assert Ids(rows, col) == {};
    } else {
      var x := rows[0][col];
      var tail := rows[1..];
      var ids := Ids(tail, col);
      IdsCons(rows, col);
      if x in seen {
        DedupeCount(tail, col, seen);
        assert Ids(rows, col) - seen == ids - seen;
      } else {
        DedupeCount(tail, col, seen + {x});
        assert |DedupeFrom(rows, col, seen)| == 1 + |ids - (seen + {x})|;
        assert Ids(rows, col) - seen == {x} + (ids - (seen + {x}));
        assert x !in ids - (seen + {x});
      }
    }
  }

  /** `duplicates = prev_length - len(data_posts)` counts the rows whose id
      occurred earlier: it is the row count minus the number of ids. */
  lemma DuplicatesRemoved(rows: seq<Row>, col: string)
    requires HasColumn(rows, col)
    ensures |rows| - |DropDuplicates(rows, col)| == |rows| - |Ids(rows, col)|
  {
    DedupeCount(rows, col, {});
  }

  /** `data_posts['text'].str.len() >= MIX_CARACTERES`: a missing or
      non-string text has no length and compares false. */
  predicate LongEnough(c: Cell) {
    c.Text? && |c.s| >= MinCharacters
  }

  /** Keep the rows whose text is long enough. */
  function KeepLong(rows: seq<Row>): (out: seq<Row>)
    requires HasColumn(rows, "text")
    ensures HasColumn(out, "text")
    ensures |out| <= |rows|
    ensures forall k | 0 <= k < |out| :: LongEnough(out[k]["text"])
    ensures forall r :: r in out <==> r in rows && LongEnough(r["text"])
    decreases |rows|
  {
    if rows == [] then []
    else if LongEnough(rows[0]["text"]) then [rows[0]] + KeepLong(rows[1..])
    else KeepLong(rows[1..])
  }

  lemma {:induction false} KeepLongSubsequence(rows: seq<Row>)
    requires HasColumn(rows, "text")
    ensures IsSubsequence(KeepLong(rows), rows)
    decreases |rows|
  {
    if rows != [] {
      KeepLongSubsequence(rows[1..]);
      assert [rows[0]] + rows[1..] == rows;
      if LongEnough(rows[0]["text"]) {
        SubsequenceCons(rows[0], KeepLong(rows[1..]), rows[1..]);
      } else {
        SubsequenceSkip(KeepLong(rows[1..]), rows[0], rows[1..]);
      }
    }
  }

  /** The row with its text's commas and line breaks turned into spaces. */
  function ScrubRow(r: Row): (out: Row)
    requires "text" in r && r["text"].Text?
    ensures out.Keys == r.Keys
    ensures forall c | c in r && c != "text" :: out[c] == r[c]
    ensures out["text"].Text? && |out["text"].s| == |r["text"].s|
  {
    r["text" := Text(ReplaceSeparators(r["text"].s))]
  }

  /** The three cleaning steps on rows that carry `id` and `text`. */
  function CleanRows(rows: seq<Row>): (out: seq<Row>)
    requires HasColumn(rows, "id") && HasColumn(rows, "text")
    ensures |out| <= |rows|
    ensures forall k | 0 <= k < |out| ::
      && "text" in out[k] && out[k]["text"].Text?
      && |out[k]["text"].s| >= MinCharacters
      && forall c | 0 <= c < |out[k]["text"].s| :: !IsSeparator(out[k]["text"].s[c])
  {
    var deduped := DropDuplicates(rows, "id");
    MembersHaveColumn(deduped, rows, "text");
    var long := KeepLong(deduped);
    seq(|long|, k requires 0 <= k < |long| => ScrubRow(long[k]))
  }

  /** pandas gives a column of a non-empty export a string dtype only when
      some cell holds a string; a column that is all missing values or all
      booleans has none, and `.str` on it raises `AttributeError`. */
  predicate StringColumn(f: Frame, col: string)
    requires WellFormed(f) && col in f.columns
  {
    |f.rows| == 0 || exists k | 0 <= k < |f.rows| :: f.rows[k][col].Text?
  }

  /** `clean_data_posts`; a missing `id` or `text` column raises `KeyError`,
      and a `text` column without strings fails at `.str.len()`. */
  function CleanDataPosts(f: Frame): (r: Result<Frame>)
    requires WellFormed(f)
    ensures r.Ok? <==> "id" in f.columns && "text" in f.columns && StringColumn(f, "text")
    ensures r.Ok? ==> WellFormed(r.value) && r.value.columns == f.columns
    ensures r.Ok? ==> r.value.rows == CleanRows(f.rows)
  {
    if "id" !in f.columns then Err("KeyError: id")
    else if "text" !in f.columns then Err("KeyError: text")
    else if !StringColumn(f, "text") then Err("AttributeError: Can only use .str accessor with string values")
    else
      assert HasColumn(f.rows, "id") && HasColumn(f.rows, "text");
      Ok(Frame(f.columns, CleanRows(f.rows)))
  }

  /** The cleaned posts keep their relative order: they are the scrubbed
      rows of a subsequence of the input, each with a long-enough text. */
  lemma CleanRowsOrdered(rows: seq<Row>) returns (kept: seq<Row>)
    requires HasColumn(rows, "id") && HasColumn(rows, "text")
    ensures IsSubsequence(kept, rows)
    ensures |kept| == |CleanRows(rows)|
    ensures forall k | 0 <= k < |kept| ::
      "text" in kept[k] && LongEnough(kept[k]["text"]) && CleanRows(rows)[k] == ScrubRow(kept[k])
  {
    var deduped := DropDuplicates(rows, "id");
    MembersHaveColumn(deduped, rows, "text");
    kept := KeepLong(deduped);
    DedupeSubsequence(rows, "id", {});
    KeepLongSubsequence(deduped);
    SubsequenceTrans(kept, deduped, rows);
  }

  /** After cleaning no two posts share an id. */
  lemma CleanRowsUnique(rows: seq<Row>)
    requires HasColumn(rows, "id") && HasColumn(rows, "text")
    ensures var out := CleanRows(rows);
      forall a, b | 0 <= a < b < |out| :: out[a]["id"] != out[b]["id"]
  {
    var deduped := DropDuplicates(rows, "id");
    MembersHaveColumn(deduped, rows, "text");
    var long := KeepLong(deduped);
    var out := CleanRows(rows);
    DedupeDistinct(rows, "id", {});
    assert UniqueIn(deduped, "id");
    KeepLongDistinct(deduped);
    assert UniqueIn(long, "id");
    forall a, b | 0 <= a < b < |out| ensures out[a]["id"] != out[b]["id"] {
      assert out[a]["id"] == long[a]["id"] && out[b]["id"] == long[b]["id"];
    }
  }

  /** Every cleaned post comes from the first, long-enough row of its id. */
  lemma CleanRowsSound(rows: seq<Row>, k: int)
    requires HasColumn(rows, "id") && HasColumn(rows, "text")
    requires 0 <= k < |CleanRows(rows)|
    ensures exists i | 0 <= i < |rows| ::
      && FirstOccurrence(rows, "id", i)
      && LongEnough(rows[i]["text"])
      && CleanRows(rows)[k] == ScrubRow(rows[i])
  {
    var deduped := DropDuplicates(rows, "id");
    MembersHaveColumn(deduped, rows, "text");
    var long := KeepLong(deduped);
    assert long[k] in long;
    DedupeOnlyFirsts(rows, "id", {}, long[k]);
    var i :| 0 <= i < |rows| && rows[i] == long[k] && FirstOccurrence(rows, "id", i);
    assert LongEnough(rows[i]["text"]);
  }

  /** The first row of every id survives cleaning when its text is long enough. */
  lemma CleanRowsComplete(rows: seq<Row>, i: int)
    requires HasColumn(rows, "id") && HasColumn(rows, "text")
    requires 0 <= i < |rows| && FirstOccurrence(rows, "id", i) && LongEnough(rows[i]["text"])
    ensures ScrubRow(rows[i]) in CleanRows(rows)
  {
    var deduped := DropDuplicates(rows, "id");
    MembersHaveColumn(deduped, rows, "text");
    var long := KeepLong(deduped);
    DedupeKeepsFirst(rows, "id", {}, i);
    var k :| 0 <= k < |long| && long[k] == rows[i];
    assert CleanRows(rows)[k] == ScrubRow(rows[i]);
  }

  lemma {:induction false} KeepLongDistinct(rows: seq<Row>)
    requires HasColumn(rows, "id") && HasColumn(rows, "text")
    requires UniqueIn(rows, "id")
    ensures HasColumn(KeepLong(rows), "id")
    ensures UniqueIn(KeepLong(rows), "id")
    decreases |rows|
  {
    MembersHaveColumn(KeepLong(rows), rows, "id");
    if rows != [] {
      var tail := rows[1..];
      assert UniqueIn(tail, "id") by {
        forall x, y | 0 <= x < y < |tail| ensures tail[x]["id"] != tail[y]["id"] {
          assert tail[x] == rows[x + 1] && tail[y] == rows[y + 1];
        }
      }
      KeepLongDistinct(tail);
      if LongEnough(rows[0]["text"]) {
        var out := KeepLong(rows);
        var rest := KeepLong(tail);
        assert out == [rows[0]] + rest;
        assert UniqueIn(rest, "id");
        forall x, y | 0 <= x < y < |out| ensures out[x]["id"] != out[y]["id"] {
          assert out[y] == rest[y - 1];
          assert out[y] in tail;
          var m :| 0 <= m < |tail| && tail[m] == out[y];
          assert rows[m + 1] == out[y];
          if x == 0 {
            assert out[0] == rows[0];
            assert rows[0]["id"] != rows[m + 1]["id"];
          } else {
            assert out[x] == rest[x - 1];
          }
        }
      }
    }
  }
}
