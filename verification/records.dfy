/** `validate_and_clean_records` (probo.py:63-72): every record is validated
    on its own; the ones that validate are kept in input order, the others
    are dropped and the loop goes on with the next record. A record that is
    not a JSON object is the exception: it fails validation too, but the
    failure message then reads its id with `record.get`, which only a
    dictionary has, and the AttributeError leaves the function, so the whole
    batch is lost.

    The filter is stated for any per-record validator, so that its laws do
    not depend on what the schema checks; the source's validator is
    `Schema.ValidateRecord`. */
module Records {
  import opened Wrappers
  import opened Json
  import opened Schema

  /** What one record contributes: its event, or nothing when it fails. */
  function Kept<R, E>(validate: R -> Option<E>, record: R): (r: seq<E>)
    ensures |r| <= 1
    ensures |r| == 1 <==> validate(record).Some?
  {
    match validate(record)
    case Some(e) => [e]
    case None => []
  }

  /** The events of the records that validate, in input order. */
  function Survivors<R, E>(validate: R -> Option<E>, records: seq<R>): (r: seq<E>)
    ensures |r| <= |records|
    decreases |records|
  {
    if records == [] then []
    else Survivors(validate, records[..|records| - 1]) + Kept(validate, records[|records| - 1])
  }

  /** The positions of the records that validate, in increasing order. */
  function ValidIndices<R, E>(validate: R -> Option<E>, records: seq<R>): (r: seq<nat>)
    decreases |records|
  {
    if records == [] then []
    else
      var n := |records| - 1;
      ValidIndices(validate, records[..n]) + if validate(records[n]).Some? then [n] else []
  }

  /** The records as the dictionaries the loop expects, or None when one of
      them is not a JSON object. */
  function AsRecords(items: seq<Json>): (r: Option<seq<map<string, Json>>>)
    ensures r.Some? <==> forall i :: 0 <= i < |items| ==> items[i].JObject?
    ensures r.Some? ==> |r.value| == |items| && forall i :: 0 <= i < |items| ==> r.value[i] == items[i].fields
    decreases |items|
  {
    if items == [] then Some([])
    else
      var front :- AsRecords(items[..|items| - 1]);
      var last := items[|items| - 1];
      if last.JObject? then Some(front + [last.fields]) else None
  }

  /** What `validate_and_clean_records` returns: the survivors of the batch,
      or None for the AttributeError a record that is not a JSON object
      raises. */
  function CleanBatch<E>(validate: map<string, Json> -> Option<E>, items: seq<Json>): (r: Option<seq<E>>)
    ensures r.None? <==> exists i :: 0 <= i < |items| && !items[i].JObject?
    ensures r.Some? ==> |r.value| <= |items|
  {
    var records :- AsRecords(items);
    Some(Survivors(validate, records))
  }

  /** The loop of the source: a local list extended one survivor at a time;
      None when the loop is left by the exception. */
  method ValidateAndCleanRecords(records: seq<Json>) returns (validated: Option<seq<Event>>)
    ensures validated == CleanBatch(ValidateRecord, records)
  {
    var kept: seq<Event> := [];
    for i := 0 to |records|
      invariant AsRecords(records[..i]).Some?
      invariant kept == Survivors(ValidateRecord, AsRecords(records[..i]).value)
    {
      if !records[i].JObject? {
        // the failure message calls `record.get`, which raises here
        return None;
      }
      ghost var front := AsRecords(records[..i]).value;
      AsRecordsExtend(records, i);
      SurvivorsExtend(ValidateRecord, front, records[i].fields);
      var event := ValidateRecord(records[i].fields);
      if event.Some? {
        kept := kept + [event.value];
      }
    }
    assert records[..|records|] == records;
    return Some(kept);
  }

  /** One more JSON object extends the dictionaries by its fields. */
  lemma AsRecordsExtend(items: seq<Json>, i: nat)
    requires i < |items| && AsRecords(items[..i]).Some? && items[i].JObject?
    ensures AsRecords(items[..i + 1]) == Some(AsRecords(items[..i]).value + [items[i].fields])
  {
    assert items[..i + 1][..i] == items[..i];
  }

  /** One more record adds what it keeps at the end. */
  lemma SurvivorsExtend<R, E>(validate: R -> Option<E>, records: seq<R>, record: R)
    ensures Survivors(validate, records + [record]) == Survivors(validate, records) + Kept(validate, record)
  {
    assert (records + [record])[..|records|] == records;
  }

  /** The positions listed are the validating ones, each in range, in
      strictly increasing order. */
  lemma {:induction false} ValidIndicesInOrder<R, E>(validate: R -> Option<E>, records: seq<R>)
    ensures forall k :: 0 <= k < |ValidIndices(validate, records)| ==> ValidIndices(validate, records)[k] < |records|
    ensures forall k, l :: 0 <= k < l < |ValidIndices(validate, records)| ==>
      ValidIndices(validate, records)[k] < ValidIndices(validate, records)[l]
    ensures forall i :: i in ValidIndices(validate, records) <==>
      0 <= i < |records| && validate(records[i]).Some?
    decreases |records|
  {
    if records != [] {
      var n := |records| - 1;
      var prefix := records[..n];
      ValidIndicesInOrder(validate, prefix);
      var idx := ValidIndices(validate, records);
      assert idx == ValidIndices(validate, prefix) + if validate(records[n]).Some? then [n] else [];
      forall i | 0 <= i < n
        ensures i in idx <==> validate(records[i]).Some?
      {
        assert records[i] == prefix[i];
      }
    }
  }

  /** The survivors are exactly the validating records, in their input order:
      the k-th survivor is the event of the k-th validating position, the
      positions strictly increase, and a position is listed iff its record
      validates. */
  lemma {:induction false} SurvivorsAreValidRecordsInOrder<R, E>(validate: R -> Option<E>, records: seq<R>)
    ensures |Survivors(validate, records)| == |ValidIndices(validate, records)|
    ensures forall k :: 0 <= k < |ValidIndices(validate, records)| ==>
      ValidIndices(validate, records)[k] < |records| &&
      validate(records[ValidIndices(validate, records)[k]]) == Some(Survivors(validate, records)[k])
    ensures forall k, l :: 0 <= k < l < |ValidIndices(validate, records)| ==>
      ValidIndices(validate, records)[k] < ValidIndices(validate, records)[l]
    ensures forall i :: i in ValidIndices(validate, records) <==>
      0 <= i < |records| && validate(records[i]).Some?
    decreases |records|
  {
    ValidIndicesInOrder(validate, records);
    if records != [] {
      var n := |records| - 1;
      var prefix := records[..n];
      SurvivorsAreValidRecordsInOrder(validate, prefix);
      var idx, sv := ValidIndices(validate, records), Survivors(validate, records);
      assert idx == ValidIndices(validate, prefix) + if validate(records[n]).Some? then [n] else [];
      assert sv == Survivors(validate, prefix) + Kept(validate, records[n]);
      forall k | 0 <= k < |ValidIndices(validate, prefix)|
        ensures validate(records[idx[k]]) == Some(sv[k])
      {
        assert idx[k] == ValidIndices(validate, prefix)[k];
        assert sv[k] == Survivors(validate, prefix)[k];
        assert records[idx[k]] == prefix[idx[k]];
      }
    }
  }

  /** Fault isolation: the survivors of a concatenation are the survivors of
      each part, so nothing before a record changes what happens to what
      follows it. */
  lemma {:induction false} SurvivorsAppend<R, E>(validate: R -> Option<E>, a: seq<R>, b: seq<R>)
    ensures Survivors(validate, a + b) == Survivors(validate, a) + Survivors(validate, b)
    decreases |b|
  {
    if b == [] {
      assert a + b == a;
    } else {
      var n := |b| - 1;
      var ab := a + b;
      assert ab[..|ab| - 1] == a + b[..n];
      assert ab[|ab| - 1] == b[n];
      calc {
        Survivors(validate, ab);
        Survivors(validate, a + b[..n]) + Kept(validate, b[n]);
        { SurvivorsAppend(validate, a, b[..n]); }
        Survivors(validate, a) + Survivors(validate, b[..n]) + Kept(validate, b[n]);
      }
    }
  }

  /** A record that fails validation is dropped, and the records after it are
      still examined: the batch loses exactly that one record. */
  lemma InvalidRecordDropped<R, E>(validate: R -> Option<E>, before: seq<R>, bad: R, after: seq<R>)
    requires validate(bad).None?
    ensures Survivors(validate, before + [bad] + after)
         == Survivors(validate, before) + Survivors(validate, after)
    ensures Survivors(validate, before + [bad] + after) == Survivors(validate, before + after)
  {
    assert [bad][..0] == [];
    assert Survivors(validate, [bad]) == [];
    calc {
      Survivors(validate, before + [bad] + after);
      { SurvivorsAppend(validate, before + [bad], after); }
      Survivors(validate, before + [bad]) + Survivors(validate, after);
      { SurvivorsAppend(validate, before, [bad]); }
      Survivors(validate, before) + Survivors(validate, after);
    }
    SurvivorsAppend(validate, before, after);
  }

  /** A record that validates is kept in its place. */
  lemma ValidRecordKept<R, E>(validate: R -> Option<E>, before: seq<R>, good: R, after: seq<R>)
    requires validate(good).Some?
    ensures Survivors(validate, before + [good] + after)
         == Survivors(validate, before) + [validate(good).value] + Survivors(validate, after)
  {
    assert [good][..0] == [];
    assert Survivors(validate, [good]) == [validate(good).value];
    calc {
      Survivors(validate, before + [good] + after);
      { SurvivorsAppend(validate, before + [good], after); }
      Survivors(validate, before + [good]) + Survivors(validate, after);
      { SurvivorsAppend(validate, before, [good]); }
      Survivors(validate, before) + [validate(good).value] + Survivors(validate, after);
    }
  }

  /** A record that is not a JSON object loses the whole batch, whatever
      comes before or after it. */
  lemma NonObjectRecordLosesBatch<E>(validate: map<string, Json> -> Option<E>, before: seq<Json>, bad: Json, after: seq<Json>)
    requires !bad.JObject?
    ensures CleanBatch(validate, before + [bad] + after) == None
  {
    assert (before + [bad] + after)[|before|] == bad;
  }

  /** A JSON object that fails validation is dropped from the batch, and the
      records after it are still examined. */
  lemma RejectedObjectDropped<E>(validate: map<string, Json> -> Option<E>, before: seq<Json>, bad: Json, after: seq<Json>)
    requires bad.JObject? && validate(bad.fields).None?
    ensures CleanBatch(validate, before + [bad] + after) == CleanBatch(validate, before + after)
  {
    var whole, rest := before + [bad] + after, before + after;
    if AsRecords(whole).Some? {
      forall i | 0 <= i < |rest|
        ensures rest[i].JObject?
      {
        if i < |before| {
          assert rest[i] == whole[i];
        } else {
          assert rest[i] == whole[i + 1];
        }
      }
      assert AsRecords(before).Some? by {
        forall i | 0 <= i < |before| ensures before[i].JObject? {
          assert before[i] == whole[i];
        }
      }
      assert AsRecords(after).Some? by {
        forall i | 0 <= i < |after| ensures after[i].JObject? {
          assert after[i] == whole[|before| + 1 + i];
        }
      }
      var a, b := AsRecords(before).value, AsRecords(after).value;
      assert AsRecords(whole).value == a + [bad.fields] + b;
      assert AsRecords(rest).value == a + b;
      InvalidRecordDropped(validate, a, bad.fields, b);
    } else {
      var j :| 0 <= j < |whole| && !whole[j].JObject?;
      if j < |before| {
        assert rest[j] == whole[j];
      } else {
        assert j > |before|;
        assert rest[j - 1] == whole[j];
      }
    }
  }
}
