/** The account-activation token's hash input. */
module Tokens {
  import opened Wrappers
  import opened Text

  /** Python's `str()` of a bool. */
  function BoolToString(b: bool): string {
    if b then "True" else "False"
  }

  /** `ProfileActivationTokenGenerator._make_hash_value`: the user's key,
      the token timestamp and the profile's `is_confirmed` flag, written out
      and joined in that order with no separator. */
  function HashValue(pk: int, timestamp: int, isConfirmed: bool): (h: string)
    ensures |h| == |IntToString(pk)| + |IntToString(timestamp)| + |BoolToString(isConfirmed)|
    ensures h[..|IntToString(pk)|] == IntToString(pk)
    ensures ParseInt(h[|IntToString(pk)|..|IntToString(pk)| + |IntToString(timestamp)|]) == Some(timestamp)
    ensures isConfirmed ==> |h| >= 4 && h[|h| - 4..] == "True"
    ensures !isConfirmed ==> |h| >= 5 && h[|h| - 5..] == "False"
  {
    var key, stamp := IntToString(pk), IntToString(timestamp);
    var h := key + stamp + BoolToString(isConfirmed);
    assert h[|key|..|key| + |stamp|] == stamp;
    h
  }

  /** A token made for one value of the flag never matches the other: a
      token issued before confirmation stops working once it is used. */
  lemma HashValueTracksConfirmation(pk: int, timestamp: int, a: bool, b: bool)
    ensures HashValue(pk, timestamp, a) == HashValue(pk, timestamp, b) <==> a == b
  {
    if a != b {
      assert |HashValue(pk, timestamp, a)| != |HashValue(pk, timestamp, b)|;
    }
  }

  /** Without a separator, different (key, timestamp) pairs can give the same
      hash input. */
  lemma HashValueHasNoSeparator(isConfirmed: bool)
    ensures HashValue(1, 23, isConfirmed) == HashValue(12, 3, isConfirmed)
  {
    assert NatToString(1) == "1" && NatToString(3) == "3";
    assert NatToString(2) == "2";
    assert NatToString(23) == "23" && NatToString(12) == "12";
    var flag := BoolToString(isConfirmed);
    assert HashValue(1, 23, isConfirmed) == "1" + "23" + flag;
    assert HashValue(12, 3, isConfirmed) == "12" + "3" + flag;
  }
}
