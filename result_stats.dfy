/** The two numbers reported after a search: how many pages (result rows)
    and how many distinct files they come from. */
module ResultStats {
  import opened Catalog

  /** `len(results)`: one page per row. */
  function PageCount(rows: seq<Row>): nat {
    |rows|
  }

  /** The file ids occurring in the results. */
  function FileIds(rows: seq<Row>): set<string> {
    set i | 0 <= i < |rows| :: rows[i].fileId
  }

  /** `results['file_id'].nunique()`. */
  function FileCount(rows: seq<Row>): nat {
    |FileIds(rows)|
  }

  /** No two result rows share a file id. */
  predicate DistinctFiles(rows: seq<Row>) {
    forall i, j :: 0 <= i < j < |rows| ==> rows[i].fileId != rows[j].fileId
  }

  lemma FileIdsSnoc(rows: seq<Row>)
    requires |rows| > 0
    ensures FileIds(rows) == FileIds(rows[..|rows| - 1]) + {rows[|rows| - 1].fileId}
  {
    var front := rows[..|rows| - 1];
    forall id | id in FileIds(rows)
      ensures id in FileIds(front) + {rows[|rows| - 1].fileId}
    {
      var i :| 0 <= i < |rows| && rows[i].fileId == id;
      if i < |front| {
        assert front[i] == rows[i];
      }
    }
    forall id | id in FileIds(front)
      ensures id in FileIds(rows)
    {
      var i :| 0 <= i < |front| && front[i].fileId == id;
      assert rows[i] == front[i];
    }
  }

  /** The file count never exceeds the page count, and they are equal exactly
      when every page comes from a different file. */
  lemma {:induction false} FileCountBound(rows: seq<Row>)
    ensures FileCount(rows) <= PageCount(rows)
    ensures FileCount(rows) == PageCount(rows) <==> DistinctFiles(rows)
  {
    if |rows| == 0 {
      assert FileIds(rows) == {};
    } else {
      var front := rows[..|rows| - 1];
      var last := rows[|rows| - 1];
      FileIdsSnoc(rows);
      FileCountBound(front);
      assert forall i :: 0 <= i < |front| ==> front[i] == rows[i];
      if last.fileId in FileIds(front) {
        var i :| 0 <= i < |front| && front[i].fileId == last.fileId;
        assert rows[i].fileId == rows[|rows| - 1].fileId;
        assert !DistinctFiles(rows);
      } else {
        assert DistinctFiles(rows) <==> DistinctFiles(front);
      }
    }
  }

  /** A non-empty result comes from at least one file. */
  lemma NonEmptyResultHasAFile(rows: seq<Row>)
    requires |rows| > 0
    ensures 1 <= FileCount(rows)
  {
    assert rows[0].fileId in FileIds(rows);
  }
}
