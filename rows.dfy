/** A decoded row: a Python dict from column name to value, which keeps its keys in
    insertion order and, when a key is assigned again, replaces the value in place. */
module Rows {
  import opened Wrappers
  import opened Runtime

  datatype Entry = Entry(key: string, value: Value)

  type Row = seq<Entry>

  function Keys(row: seq<Entry>): (ks: seq<string>)
    ensures |ks| == |row|
    ensures forall i :: 0 <= i < |row| ==> ks[i] == row[i].key
  {
    seq(|row|, i requires 0 <= i < |row| => row[i].key)
  }

  ghost predicate Distinct(s: seq<string>)
  {
    forall i, j :: 0 <= i < j < |s| ==> s[i] != s[j]
  }

  /** `row.get(k)`: the value of the first entry with key k. */
  function Lookup(row: Row, k: string): (r: Option<Value>)
    ensures r.None? <==> k !in Keys(row)
  {
    if row == [] then None
    else if row[0].key == k then Some(row[0].value)
    else Lookup(row[1..], k)
  }

  /** `row[k] = v`: an existing key is replaced where it stands, a new one is appended. */
  function Put(row: Row, k: string, v: Value): (r: Row)
    ensures Keys(r) == if k in Keys(row) then Keys(row) else Keys(row) + [k]
  {
    if row == [] then [Entry(k, v)]
    else if row[0].key == k then [Entry(k, v)] + row[1..]
    else
      assert Keys(row) == [row[0].key] + Keys(row[1..]);
      var r := [row[0]] + Put(row[1..], k, v);
      assert Keys(r) == [row[0].key] + Keys(Put(row[1..], k, v));
      r
  }

  /** After `row[k] = v`, k maps to v and every other key keeps its value. */
  lemma {:induction false} PutLookup(row: Row, k: string, v: Value, k': string)
    ensures Lookup(Put(row, k, v), k) == Some(v)
    ensures k' != k ==> Lookup(Put(row, k, v), k') == Lookup(row, k')
    decreases |row|
  {
    if row != [] && row[0].key != k {
      PutLookup(row[1..], k, v, k');
      assert Put(row, k, v)[1..] == Put(row[1..], k, v);
    }
  }

  /** Assigns every entry of `ws` in order, as the decoder's loop does. */
  function PutAll(row: Row, ws: seq<Entry>): Row
    decreases |ws|
  {
    if ws == [] then row
    else
      var last := ws[|ws| - 1];
      Put(PutAll(row, ws[..|ws| - 1]), last.key, last.value)
  }

  /** One more assignment after the others. */
  lemma PutAllSnoc(row: Row, ws: seq<Entry>, e: Entry)
    ensures PutAll(row, ws + [e]) == Put(PutAll(row, ws), e.key, e.value)
  {
    assert (ws + [e])[..|ws|] == ws;
  }

  /** The keys of `s` in the order of their first occurrence (an independent
      description of the dict's key order). */
  function FirstOccurrences(s: seq<string>): seq<string>
    decreases |s|
  {
    if s == [] then []
    else
      var done := FirstOccurrences(s[..|s| - 1]);
      if s[|s| - 1] in done then done else done + [s[|s| - 1]]
  }

  lemma {:induction false} FirstOccurrencesFacts(s: seq<string>)
    ensures Distinct(FirstOccurrences(s))
    ensures forall k :: k in FirstOccurrences(s) <==> k in s
    ensures |s| > 0 ==> |FirstOccurrences(s)| > 0 && FirstOccurrences(s)[0] == s[0]
    decreases |s|
  {
    if s != [] {
      var init := s[..|s| - 1];
      FirstOccurrencesFacts(init);
      assert forall k :: k in s <==> k in init || k == s[|s| - 1];
      if |init| > 0 {
        assert init[0] == s[0];
      }
    }
  }

  /** The row's key order: first occurrences of the initial keys followed by the assigned ones. */
  lemma {:induction false} PutAllKeys(row: Row, ws: seq<Entry>)
    requires Distinct(Keys(row))
    ensures Keys(PutAll(row, ws)) == FirstOccurrences(Keys(row) + Keys(ws))
    decreases |ws|
  {
    if ws == [] {
      assert Keys(row) + Keys(ws) == Keys(row);
      DistinctFirstOccurrences(Keys(row));
    } else {
      var init := ws[..|ws| - 1];
      var last := ws[|ws| - 1];
      PutAllKeys(row, init);
      KeysSnoc(ws);
      assert Keys(row) + Keys(ws) == (Keys(row) + Keys(init)) + [last.key];
      FirstOccurrencesSnoc(Keys(row) + Keys(init), last.key);
    }
  }

  lemma KeysSnoc(ws: seq<Entry>)
    requires ws != []
    ensures Keys(ws) == Keys(ws[..|ws| - 1]) + [ws[|ws| - 1].key]
  {
  }

  lemma FirstOccurrencesSnoc(s: seq<string>, k: string)
    ensures FirstOccurrences(s + [k]) ==
      if k in FirstOccurrences(s) then FirstOccurrences(s) else FirstOccurrences(s) + [k]
  {
    assert (s + [k])[..|s|] == s;
  }

  lemma {:induction false} DistinctFirstOccurrences(s: seq<string>)
    requires Distinct(s)
    ensures FirstOccurrences(s) == s
    decreases |s|
  {
    if s != [] {
      var init := s[..|s| - 1];
      DistinctFirstOccurrences(init);
      assert s[|s| - 1] !in init;
      assert init + [s[|s| - 1]] == s;
    }
  }

  /** A key never assigned in `ws` keeps the value it had before. */
  lemma {:induction false} PutAllLookupUntouched(row: Row, ws: seq<Entry>, k: string)
    requires k !in Keys(ws)
    ensures Lookup(PutAll(row, ws), k) == Lookup(row, k)
    decreases |ws|
  {
    if ws != [] {
      var init := ws[..|ws| - 1];
      var last := ws[|ws| - 1];
      assert Keys(ws) == Keys(init) + [last.key];
      PutAllLookupUntouched(row, init, k);
      PutLookup(PutAll(row, init), last.key, last.value, k);
    }
  }

  /** Last write wins: a key assigned in `ws` holds the value of its last assignment. */
  lemma {:induction false} PutAllLookupLast(row: Row, ws: seq<Entry>, i: nat)
    requires i < |ws|
    requires forall j :: i < j < |ws| ==> ws[j].key != ws[i].key
    ensures Lookup(PutAll(row, ws), ws[i].key) == Some(ws[i].value)
    decreases |ws|
  {
    var init := ws[..|ws| - 1];
    var last := ws[|ws| - 1];
    PutLookup(PutAll(row, init), last.key, last.value, ws[i].key);
    if i < |ws| - 1 {
      PutAllLookupLast(row, init, i);
    }
  }
}
