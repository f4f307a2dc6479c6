/** getClientIp in api/analyze.js: the address a request is counted
    under by the rate limiter. */
module ClientAddress {
  import opened Results
  import opened Strings

  /** getClientIp: `forwarded` is the `x-forwarded-for` header when it is a
      string, `remoteAddress` the socket's address when there is one. */
  function ClientIp(forwarded: Option<string>, remoteAddress: Option<string>): string {
    if forwarded.Some? && forwarded.value != "" then Trim(Split(forwarded.value, ',')[0])
    else if remoteAddress.Some? && remoteAddress.value != "" then remoteAddress.value
    else "unknown"
  }

  /** A non-empty header gives its first comma-separated entry, trimmed:
      the text before the first ',' (all of it when there is none). */
  lemma {:induction false} ClientIpFromHeader(forwarded: string, remoteAddress: Option<string>)
    requires forwarded != ""
    ensures ',' !in forwarded ==> ClientIp(Some(forwarded), remoteAddress) == Trim(forwarded)
    ensures ',' in forwarded ==> var k := IndexOf(forwarded, ',');
      0 <= k && ',' !in forwarded[..k] && ClientIp(Some(forwarded), remoteAddress) == Trim(forwarded[..k])
    ensures ',' !in ClientIp(Some(forwarded), remoteAddress)
  {
    SplitFirst(forwarded, ',');
    TrimOmits(Split(forwarded, ',')[0], ',');
  }

  /** Without a usable header the socket's address is used, and "unknown"
      when there is none. */
  lemma {:induction false} ClientIpWithoutHeader(forwarded: Option<string>, remoteAddress: Option<string>)
    requires forwarded.None? || forwarded.value == ""
    ensures remoteAddress.Some? && remoteAddress.value != "" ==> ClientIp(forwarded, remoteAddress) == remoteAddress.value
    ensures remoteAddress.None? || remoteAddress.value == "" ==> ClientIp(forwarded, remoteAddress) == "unknown"
  {}
}
