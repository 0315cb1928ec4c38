/**
 * The bounded wait for the Wi-Fi link in `connectWiFiAndPrintTime()`.
 * The association itself is outside the model: `linkUp(k)` is the answer of
 * the k-th call to the status query during one attempt (counting from 0),
 * so the while guard's query at iteration k is `linkUp(k)`.
 */
module WiFi {
  import opened Config

  /**
   * Polls the link, waiting 500 ms between polls, until it reports connected
   * or 20 waits have passed; then polls once more, and that final answer
   * decides whether the NTP set-up and the time print of lines 127-135 of
   * `src/main.cpp` run (they are not part of this model). `retries` is the
   * number of waits, `connected` the answer of that final poll.
   */
  method ConnectWiFi(linkUp: nat -> bool) returns (retries: nat, connected: bool)
    ensures retries <= MaxWiFiRetries
    ensures forall k :: 0 <= k < retries ==> !linkUp(k)
    ensures retries < MaxWiFiRetries ==> linkUp(retries)
    ensures connected == linkUp(retries + 1)
  {
    retries := 0;
    while !linkUp(retries) && retries < MaxWiFiRetries
      invariant retries <= MaxWiFiRetries
      invariant forall k :: 0 <= k < retries ==> !linkUp(k)
    {
      retries := retries + 1;
    }
    connected := linkUp(retries + 1);
  }
}
