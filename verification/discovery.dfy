/**
 * Finding the Monocle: the scanner hands each advertisement to
 * `match_repl_uuid`, which accepts a device when its list of advertised
 * service UUIDs contains the lower-cased REPL (Nordic UART) service UUID as
 * an exact string. Only the constant is lower-cased; the advertised strings
 * are compared as they are, and no other field of the advertisement is read.
 */
module Discovery {
  import opened Results
  import Gatt

  /** The advertisement fields a scanner reports. */
  datatype Advertisement = Advertisement(localName: Option<string>, serviceUuids: seq<string>, rssi: int)

  /** An ASCII capital letter. */
  predicate IsUpper(c: char) {
    'A' <= c <= 'Z'
  }

  /**
   * ASCII lower-casing of one character: a capital A-Z becomes the small
   * letter at the same place in the alphabet, and every other character,
   * non-ASCII letters included, is kept. This is all of `str.lower()` that
   * the ASCII service UUID constant needs.
   */
  function LowerChar(c: char): (d: char)
    ensures !IsUpper(d)
    ensures IsUpper(c) ==> 'a' <= d <= 'z' && d as int - 'a' as int == c as int - 'A' as int
    ensures !IsUpper(c) ==> d == c
  {
    if IsUpper(c) then (c as int + 32) as char else c
  }

  /** A string without ASCII capital letters. */
  predicate IsLower(s: string) {
    forall i :: 0 <= i < |s| ==> !IsUpper(s[i])
  }

  /** ASCII lower-casing of a string: same length, no capital left, each character mapped on its own. */
  function Lower(s: string): (r: string)
    ensures |r| == |s| && IsLower(r)
    ensures forall i :: 0 <= i < |s| ==> r[i] == LowerChar(s[i])
  {
    seq(|s|, i requires 0 <= i < |s| => LowerChar(s[i]))
  }

  /** Lower-casing leaves a string unchanged exactly when it has no upper-case letter. */
  lemma LowerFixed(s: string)
    ensures Lower(s) == s <==> IsLower(s)
  {
    if Lower(s) == s {
      forall i | 0 <= i < |s|
        ensures !IsUpper(s[i])
      {
        assert Lower(s)[i] == s[i];
      }
    }
  }

  /** Lower-casing twice is lower-casing once. */
  lemma LowerIdempotent(s: string)
    ensures Lower(Lower(s)) == Lower(s)
  {
    LowerFixed(Lower(s));
  }

  /** The REPL service UUID constant has no capital letter. */
  lemma ServiceUuidIsLower()
    ensures IsLower(Gatt.UART_SERVICE_UUID)
  {
  }

  /** `match_repl_uuid`: accepts exactly the advertisements listing the REPL service UUID verbatim. */
  function MatchReplUuid(adv: Advertisement): (r: bool)
    ensures r <==> Gatt.UART_SERVICE_UUID in adv.serviceUuids
  {
    ServiceUuidIsLower();
    LowerFixed(Gatt.UART_SERVICE_UUID);
    Lower(Gatt.UART_SERVICE_UUID) in adv.serviceUuids
  }

  /** `u` with its letter at position `k` upper-cased. */
  function UpperAt(u: string, k: nat): (r: string)
    requires k < |u| && 'a' <= u[k] <= 'z'
    ensures |r| == |u| && r[k] != u[k]
  {
    u[..k] + [(u[k] as int - 32) as char] + u[k + 1..]
  }

  /** Upper-casing one letter of a lower-case string is undone by lower-casing. */
  lemma LowerUpperAt(u: string, k: nat)
    requires IsLower(u) && k < |u| && 'a' <= u[k] <= 'z'
    ensures Lower(UpperAt(u, k)) == u
  {
    var r := UpperAt(u, k);
    forall i | 0 <= i < |u|
      ensures Lower(r)[i] == u[i]
    {
      if i != k {
        assert r[i] == u[i];
      }
    }
  }

  /**
   * The comparison is case-sensitive on the advertised side: a device that
   * advertises the service UUID with its first letter in upper case is not
   * accepted, although lower-casing its UUID gives the one looked for.
   */
  lemma MixedCaseNotMatched(name: Option<string>, rssi: int)
    ensures Lower(UpperAt(Gatt.UART_SERVICE_UUID, 1)) == Gatt.UART_SERVICE_UUID
    ensures !MatchReplUuid(Advertisement(name, [UpperAt(Gatt.UART_SERVICE_UUID, 1)], rssi))
  {
    ServiceUuidIsLower();
    LowerUpperAt(Gatt.UART_SERVICE_UUID, 1);
  }

  /** Whether a device matches depends on its service UUID list alone. */
  lemma MatchIgnoresOtherFields(a: Advertisement, b: Advertisement)
    requires a.serviceUuids == b.serviceUuids
    ensures MatchReplUuid(a) == MatchReplUuid(b)
  {
  }

  /** The position of the first advertisement the filter accepts, if any. */
  function FirstMatch(ads: seq<Advertisement>): (r: Option<nat>)
    ensures r.Some? ==> r.value < |ads| && MatchReplUuid(ads[r.value])
    decreases |ads|
  {
    if |ads| == 0 then None
    else if MatchReplUuid(ads[0]) then Some(0)
    else
      match FirstMatch(ads[1..])
      case None => None
      case Some(k) => Some(k + 1)
  }

  /** `FirstMatch` finds a match exactly when there is one, and none earlier. */
  lemma {:induction false} FirstMatchIsFirst(ads: seq<Advertisement>)
    ensures FirstMatch(ads).None? <==> forall j :: 0 <= j < |ads| ==> !MatchReplUuid(ads[j])
    ensures FirstMatch(ads).Some? ==> forall j :: 0 <= j < FirstMatch(ads).value ==> !MatchReplUuid(ads[j])
    decreases |ads|
  {
    if |ads| != 0 && !MatchReplUuid(ads[0]) {
      FirstMatchIsFirst(ads[1..]);
      assert forall j :: 1 <= j < |ads| ==> ads[j] == ads[1..][j - 1];
    }
  }

  /**
   * `find_device_by_filter(match_repl_uuid)` over the advertisements in
   * the order they arrive: the first accepted device, or None when the
   * scan ends without one.
   */
  method FindDevice(ads: seq<Advertisement>) returns (r: Option<nat>)
    ensures r.Some? ==> r.value < |ads| && MatchReplUuid(ads[r.value])
    ensures r.Some? ==> forall j :: 0 <= j < r.value ==> !MatchReplUuid(ads[j])
    ensures r.None? ==> forall j :: 0 <= j < |ads| ==> !MatchReplUuid(ads[j])
    ensures r == FirstMatch(ads)
  {
    FirstMatchIsFirst(ads);
    var i := 0;
    while i < |ads|
      invariant 0 <= i <= |ads|
      invariant forall j :: 0 <= j < i ==> !MatchReplUuid(ads[j])
    {
      if MatchReplUuid(ads[i]) {
        return Some(i);
      }
      i := i + 1;
    }
    return None;
  }
}
