/** The `--set-meta KEY=VALUE` argument parser of martin-cp. */
module KeyValue {
  import opened Wrappers

  /** Position of the first `c` in `s`, if `s` holds one. */
  function FirstIndex(s: string, c: char): (r: Option<nat>)
    ensures r.None? <==> c !in s
    ensures r.Some? ==> r.value < |s| && s[r.value] == c && c !in s[..r.value]
  {
    if |s| == 0 then None
    else if s[0] == c then Some(0)
    else
      match FirstIndex(s[1..], c)
      case None => None
      case Some(i) =>
        assert s[..i + 1] == [s[0]] + s[1..][..i];
        Some(i + 1)
  }

  /** `s.splitn(2, sep)`: the text before the first `sep`, and the text after it
      when there is one. */
  function SplitOnce(s: string, sep: char): (r: (string, Option<string>))
    ensures r.1.None? <==> sep !in s
    ensures r.1.None? ==> r.0 == s
    ensures r.1.Some? ==> sep !in r.0 && r.0 + [sep] + r.1.value == s
  {
    match FirstIndex(s, sep)
    case None => (s, None)
    case Some(i) =>
      assert s[..i] + [sep] + s[i + 1..] == s;
      (s[..i], Some(s[i + 1..]))
  }

  function InvalidPair(s: string): string {
    "Invalid key=value pair: " + s
  }

  /** True when the first `=` of `s` sits strictly inside it: something before it
      and something after it. */
  ghost predicate WellFormedPair(s: string) {
    exists i :: 0 < i < |s| - 1 && s[i] == '=' && '=' !in s[..i]
  }

  /** Two positions of `c` that both have no `c` before them are the same. */
  lemma FirstOccurrenceUnique(s: string, c: char, i: nat, j: nat)
    requires i < |s| && j < |s| && s[i] == c && s[j] == c
    requires c !in s[..i] && c !in s[..j]
    ensures i == j
  {
  }

  /** Parses one `key=value` argument: the key is the text before the first `=`,
      the value everything after it (it may itself contain `=`); both must be
      non-empty. */
  function ParseKeyValue(s: string): (r: Result<(string, string), string>)
    ensures r.Ok? <==> WellFormedPair(s)
    ensures r.Ok? ==>
              && r.value.0 != [] && r.value.1 != []
              && '=' !in r.value.0
              && r.value.0 + "=" + r.value.1 == s
    ensures r.Err? ==> r.error == InvalidPair(s)
  {
    var (key, rest) := SplitOnce(s, '=');
    match rest
    case None => Err(InvalidPair(s))
    case Some(value) =>
      var i := |key|;
      assert s[i] == '=' && s[..i] == key by {
        assert s == key + ['='] + value;
      }
      assert WellFormedPair(s) ==> key != [] && value != [] by {
        if WellFormedPair(s) {
          var j :| 0 < j < |s| - 1 && s[j] == '=' && '=' !in s[..j];
          FirstOccurrenceUnique(s, '=', i, j);
        }
      }
      if key == [] || value == [] then Err(InvalidPair(s)) else Ok((key, value))
  }

  /** Joining a key without `=` and a non-empty value with `=` and parsing the
      text gives back the same pair. */
  lemma {:induction false} JoinThenParse(k: string, v: string)
    requires k != [] && v != [] && '=' !in k
    ensures ParseKeyValue(k + "=" + v) == Ok((k, v))
  {
    var s := k + "=" + v;
    assert s[..|k|] == k;
    assert WellFormedPair(s) by {
      assert 0 < |k| < |s| - 1 && s[|k|] == '=';
    }
    var r := ParseKeyValue(s);
    var (k', v') := r.value;
    assert s[..|k'|] == k' && s[|k'|] == '=' by {
      assert s == k' + ['='] + v';
    }
    FirstOccurrenceUnique(s, '=', |k|, |k'|);
    assert v' == s[|k| + 1..];
  }
}
