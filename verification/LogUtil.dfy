// include/graylog_logger/LogUtil.hpp: log messages and their additional fields.
module LogUtil {
  import opened Wrappers

  datatype AdditionalField = StringField(strVal: string) | DoubleField(dblVal: real) | IntField(intVal: int)

  type Fields = seq<(string, AdditionalField)>

  /** The contents of a log message. */
  datatype Record = Record(messageString: string, timestamp: int, processId: int, processName: string,
                           host: string, severity: int, threadId: string, fields: Fields)

  const EMPTY_RECORD := Record("", 0, -1, "", "", 7, "", [])

  function Keys(fields: Fields): (k: seq<string>)
    ensures |k| == |fields|
  {
    seq(|fields|, i requires 0 <= i < |fields| => fields[i].0)
  }

  ghost predicate UniqueKeys(fields: Fields) {
    forall i, j :: 0 <= i < j < |fields| ==> fields[i].0 != fields[j].0
  }

  /** The value under a key. */
  function Lookup(fields: Fields, key: string): Option<AdditionalField> {
    if fields == [] then None
    else if fields[0].0 == key then Some(fields[0].1)
    else Lookup(fields[1..], key)
  }

  /** The value written last under a key. */
  function LastWritten(writes: Fields, key: string): Option<AdditionalField> {
    if writes == [] then None
    else
      var n := |writes| - 1;
      if writes[n].0 == key then Some(writes[n].1) else LastWritten(writes[..n], key)
  }

  /** Keys in the order of their first occurrence. */
  function Distinct(keys: seq<string>): seq<string> {
    if keys == [] then []
    else
      var n := |keys| - 1;
      Distinct(keys[..n]) + if keys[n] in keys[..n] then [] else [keys[n]]
  }

  /** A key's value replaced in its place, or a new key at the end. */
  function Put(fields: Fields, key: string, value: AdditionalField): Fields {
    if fields == [] then [(key, value)]
    else if fields[0].0 == key then [(key, value)] + fields[1..]
    else [fields[0]] + Put(fields[1..], key, value)
  }

  function PutAll(fields: Fields, writes: Fields): Fields {
    if writes == [] then fields
    else
      var n := |writes| - 1;
      Put(PutAll(fields, writes[..n]), writes[n].0, writes[n].1)
  }

  // ---- One write -----------------------------------------------------------

  lemma {:induction false} PutAt(fields: Fields, i: nat, key: string, value: AdditionalField)
    requires i < |fields| && fields[i].0 == key && forall j :: 0 <= j < i ==> fields[j].0 != key
    ensures Put(fields, key, value) == fields[i := (key, value)]
  {
    if i == 0 {
    } else {
      PutAt(fields[1..], i - 1, key, value);
    }
  }

  lemma {:induction false} PutNew(fields: Fields, key: string, value: AdditionalField)
    requires forall j :: 0 <= j < |fields| ==> fields[j].0 != key
    ensures Put(fields, key, value) == fields + [(key, value)]
  {
    if fields == [] {
    } else {
      PutNew(fields[1..], key, value);
    }
  }

  lemma {:induction false} LookupPut(fields: Fields, key: string, value: AdditionalField, k: string)
    ensures Lookup(Put(fields, key, value), k) == if k == key then Some(value) else Lookup(fields, k)
  {
    if fields != [] && fields[0].0 != key {
      LookupPut(fields[1..], key, value, k);
      assert Put(fields, key, value)[1..] == Put(fields[1..], key, value);
    } else if fields != [] {
      assert Put(fields, key, value)[1..] == fields[1..];
    }
  }

  lemma {:induction false} KeysPut(fields: Fields, key: string, value: AdditionalField)
    ensures Keys(Put(fields, key, value)) == if key in Keys(fields) then Keys(fields) else Keys(fields) + [key]
  {
    if i: nat :| i < |fields| && fields[i].0 == key && forall j :: 0 <= j < i ==> fields[j].0 != key {
      PutAt(fields, i, key, value);
      assert Keys(fields)[i] == key;
      assert Keys(fields[i := (key, value)]) == Keys(fields);
    } else {
      NoFirst(fields, key);
      PutNew(fields, key, value);
      assert Keys(fields + [(key, value)]) == Keys(fields) + [key];
    }
  }

  /** A key that has no first occurrence has none. */
  lemma {:induction false} NoFirst(fields: Fields, key: string)
    requires !exists i: nat :: i < |fields| && fields[i].0 == key && forall j :: 0 <= j < i ==> fields[j].0 != key
    ensures forall j :: 0 <= j < |fields| ==> fields[j].0 != key
  {
    var n := 0;
    while n < |fields|
      invariant n <= |fields|
      invariant forall j :: 0 <= j < n ==> fields[j].0 != key
    {
      n := n + 1;
    }
  }

  // ---- Any number of writes ------------------------------------------------

  /** Each key has the value written last, or else the one it had. */
  lemma {:induction false} LookupPutAll(fields: Fields, writes: Fields, k: string)
    ensures Lookup(PutAll(fields, writes), k)
      == if LastWritten(writes, k).Some? then LastWritten(writes, k) else Lookup(fields, k)
  {
    if writes == [] {
    } else {
      var n := |writes| - 1;
      LookupPutAll(fields, writes[..n], k);
      LookupPut(PutAll(fields, writes[..n]), writes[n].0, writes[n].1, k);
    }
  }

  lemma {:induction false} DistinctSame(keys: seq<string>)
    ensures forall k :: k in Distinct(keys) <==> k in keys
    ensures forall i, j :: 0 <= i < j < |Distinct(keys)| ==> Distinct(keys)[i] != Distinct(keys)[j]
  {
    if keys == [] {
    } else {
      var n := |keys| - 1;
      DistinctSame(keys[..n]);
      assert keys == keys[..n] + [keys[n]];
    }
  }

  lemma {:induction false} DistinctOfUnique(keys: seq<string>)
    requires forall i, j :: 0 <= i < j < |keys| ==> keys[i] != keys[j]
    ensures Distinct(keys) == keys
  {
    if keys == [] {
    } else {
      var n := |keys| - 1;
      DistinctOfUnique(keys[..n]);
      assert keys == keys[..n] + [keys[n]];
    }
  }

  lemma {:induction false} KeysInOrder(fields: Fields, writes: Fields)
    requires UniqueKeys(fields)
    ensures Keys(PutAll(fields, writes)) == Distinct(Keys(fields) + Keys(writes))
  {
    if writes == [] {
      assert Keys(fields) + Keys(writes) == Keys(fields);
      DistinctOfUnique(Keys(fields));
    } else {
      var n := |writes| - 1;
      KeysInOrder(fields, writes[..n]);
      KeysPut(PutAll(fields, writes[..n]), writes[n].0, writes[n].1);
      DistinctSame(Keys(fields) + Keys(writes[..n]));
      AppendedKeys(fields, writes);
    }
  }

  lemma AppendedKeys(fields: Fields, writes: Fields)
    requires writes != []
    ensures var n := |writes| - 1;
      Keys(fields) + Keys(writes) == Keys(fields) + Keys(writes[..n]) + [writes[n].0]
  {
  }

  /** Keys stand in the order in which they were first written, each once. */
  lemma KeysPutAll(fields: Fields, writes: Fields)
    requires UniqueKeys(fields)
    ensures Keys(PutAll(fields, writes)) == Distinct(Keys(fields) + Keys(writes))
    ensures UniqueKeys(PutAll(fields, writes))
  {
    KeysInOrder(fields, writes);
    DistinctSame(Keys(fields) + Keys(writes));
    var r := PutAll(fields, writes);
    forall i, j | 0 <= i < j < |r|
      ensures r[i].0 != r[j].0
    {
      assert Keys(r)[i] != Keys(r)[j];
    }
  }

  // ---- The message object --------------------------------------------------

  /** struct LogMessage, which its owner changes in place. */
  class LogMessage {
    var messageString: string
    var timestamp: int
    var processId: int
    var processName: string
    var host: string
    var severityLevel: int
    var threadId: string
    var additionalFields: Fields

    constructor ()
      ensures Value() == EMPTY_RECORD
    {
      messageString, timestamp, processId, processName := "", 0, -1, "";
      host, severityLevel, threadId, additionalFields := "", 7, "", [];
    }

    constructor Copy(other: LogMessage)
      ensures Value() == other.Value()
    {
      messageString, timestamp := other.messageString, other.timestamp;
      processId, processName := other.processId, other.processName;
      host, severityLevel := other.host, other.severityLevel;
      threadId, additionalFields := other.threadId, other.additionalFields;
    }

    function Value(): Record
      reads this
    {
      Record(messageString, timestamp, processId, processName, host, severityLevel, threadId, additionalFields)
    }

    /** Lines 88-101. */
    method AddField(key: string, value: AdditionalField)
      modifies this`additionalFields
      ensures additionalFields == Put(old(additionalFields), key, value)
    {
      var fieldLoc := -1;
      var i := 0;
      while i < |additionalFields|
        invariant i <= |additionalFields|
        invariant fieldLoc == -1
        invariant forall j :: 0 <= j < i ==> additionalFields[j].0 != key
      {
        if additionalFields[i].0 == key {
          fieldLoc := i;
          break;
        }
        i := i + 1;
      }
      if fieldLoc == -1 {
        PutNew(additionalFields, key, value);
        additionalFields := additionalFields + [(key, value)];
      } else {
        PutAt(additionalFields, i, key, value);
        additionalFields := additionalFields[fieldLoc := (key, value)];
      }
    }
  }
}
