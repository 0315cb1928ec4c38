/**
 * Fixed configuration of the feedback-button sketch: four buttons on
 * active-LOW input lines, one indicator LED per button, and the timing
 * constants of the active period.
 */
module Config {

  /** Number of buttons (and of LEDs); button i is paired with LED i. */
  const NumButtons: nat := 4

  /**
   * GPIO numbers of the button inputs, in scan order. They are typed as 6-bit
   * values, the shift amounts for which `1ULL << pin` is defined on a 64-bit
   * mask; each literal is checked to fit.
   */
  const ButtonPins: seq<bv6> := [27, 26, 25, 33]

  /** How long the device stays awake after boot before it forces deep sleep: 10 minutes in ms. */
  const StayAwakeDuration: nat := 10 * 60 * 1000

  /** Upper bound on the number of 500 ms waits for the Wi-Fi link. */
  const MaxWiFiRetries: nat := 20
}
