/** The record dictionary handed to the row writer: a Python dict, that is, distinct keys in
  * insertion order, whose values are numbers, text or dates. */
module Records {
  import opened Wrappers
  import opened Calendar

  datatype Value = Text(text: string) | Number(x: real) | Whole(n: int) | Day(date: Date)

  type Record = seq<(string, Value)>

  function Keys(rec: Record): (ks: seq<string>)
    ensures |ks| == |rec| && forall i :: 0 <= i < |rec| ==> ks[i] == rec[i].0
  {
    seq(|rec|, i requires 0 <= i < |rec| => rec[i].0)
  }

  predicate Distinct(s: seq<string>) {
    forall i, j :: 0 <= i < j < |s| ==> s[i] != s[j]
  }

  /** `dict.get(key)`: the value stored under `key`, if any. */
  function Get(rec: Record, key: string): (r: Option<Value>)
    ensures r.None? <==> key !in Keys(rec)
    ensures r.Some? ==> exists i :: 0 <= i < |rec| && rec[i] == (key, r.value)
  {
    if rec == [] then None
    else if rec[0].0 == key then Some(rec[0].1)
    else
      assert Keys(rec) == [rec[0].0] + Keys(rec[1..]);
      Get(rec[1..], key)
  }

  /** With distinct keys, looking up the i-th key finds the i-th value. */
  lemma {:induction false} GetAt(rec: Record, i: int)
    requires Distinct(Keys(rec)) && 0 <= i < |rec|
    ensures Get(rec, rec[i].0) == Some(rec[i].1)
  {
    if i > 0 {
      assert Keys(rec)[0] != Keys(rec)[i];
      assert Keys(rec[1..]) == Keys(rec)[1..];
      GetAt(rec[1..], i - 1);
    }
  }

  /** Every date in the record is one Python can hold. */
  predicate WellDated(rec: Record) {
    forall i :: 0 <= i < |rec| ==> rec[i].1.Day? ==> IsPyDate(rec[i].1.date)
  }
}
