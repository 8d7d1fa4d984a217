/** The client address used to key the rate limiter: the first entry of
    `x-forwarded-for`, else `x-real-ip`, else a fixed placeholder. Each
    header is given as its value, or `None` when the request lacks it. */
module ClientIp {
  import opened Wrappers
  import opened Strings

  /** `hop` is the first comma-separated entry of `header`, trimmed. */
  ghost predicate IsFirstEntry(hop: string, header: string) {
    exists k :: 0 <= k <= |header| && ',' !in header[..k] &&
      (k == |header| || header[k] == ',') && IsTrimOf(hop, header[..k])
  }

  /** Proof helper: a cut point `k` that closes the first entry is a
      witness of `IsFirstEntry`. */
  lemma FirstEntryWitness(hop: string, header: string, k: nat)
    requires k <= |header| && ',' !in header[..k] && (k == |header| || header[k] == ',')
    requires IsTrimOf(hop, header[..k])
    ensures IsFirstEntry(hop, header)
  {
  }

  /** `header.split(",")[0].trim()`. */
  function FirstHop(header: string): (hop: string)
    ensures Trimmed(hop) && ',' !in hop
    ensures IsFirstEntry(hop, header)
  {
    var first := Split(header, ',')[0];
    SplitFirst(header, ',');
    TrimAbsent(first, ',');
    assert header[..|first|] == first;
    FirstEntryWitness(Trim(first), header, |first|);
    Trim(first)
  }

  const PLACEHOLDER: string := "0.0.0.0"

  /** `getClientIp(req)`: never empty and never padded with spaces; it is
      the first forwarded hop when that is not blank, otherwise the real-ip
      header when that is not blank, otherwise the placeholder. */
  function GetClientIp(forwardedFor: Option<string>, realIp: Option<string>): (ip: string)
    ensures ip != "" && Trimmed(ip)
    ensures ip == PLACEHOLDER ||
      (forwardedFor.Some? && IsFirstEntry(ip, forwardedFor.value) && ',' !in ip) ||
      (realIp.Some? && IsTrimOf(ip, realIp.value))
    ensures forwardedFor.Some? && FirstHop(forwardedFor.value) != "" ==>
      ip == FirstHop(forwardedFor.value) && IsFirstEntry(ip, forwardedFor.value) && ',' !in ip
    ensures ((forwardedFor.None? || FirstHop(forwardedFor.value) == "") &&
             realIp.Some? && Trim(realIp.value) != "") ==> ip == Trim(realIp.value)
    ensures ((forwardedFor == None || FirstHop(forwardedFor.value) == "") &&
             (realIp == None || Trim(realIp.value) == "")) ==> ip == PLACEHOLDER
  {
    var xf := if forwardedFor.Some? then FirstHop(forwardedFor.value) else "";
    var xr := if realIp.Some? then Trim(realIp.value) else "";
    if xf != "" then xf else if xr != "" then xr else PLACEHOLDER
  }

  /** The forwarded header wins over the real-ip header whenever its first
      entry is not blank. */
  lemma ForwardedWins(header: string, realIp: Option<string>)
    requires Trim(Split(header, ',')[0]) != ""
    ensures GetClientIp(Some(header), realIp) == Trim(Split(header, ',')[0])
  {
  }
}
