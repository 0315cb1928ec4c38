/**
 * The debounced button scan. One scan pass reads every line in index
 * order; a line read LOW is read again 20 ms later and counts as pressed
 * only if that second read is LOW as well. `first[i]` is the level of the
 * first read of line i in a pass, `second[i]` the level of the re-read
 * (only looked at when the first read was LOW).
 *
 * Two scans exist: the one in `setup()` stops at the first confirmed line
 * (`FirstConfirmed`), the one in `loop()` has no `break` and handles every
 * confirmed line of the pass (`ConfirmedAll`).
 */
module Debounce {

  datatype Option<T> = None | Some(value: T)

  /** Level of an input line; the buttons pull their line LOW when pressed. */
  datatype Level = Low | High

  /** Line i is confirmed in this pass: LOW on the first read and still LOW on the re-read. */
  predicate Confirmed(first: seq<Level>, second: seq<Level>, i: nat)
    requires i < |first| && i < |second|
  {
    first[i] == Low && second[i] == Low
  }

  /** What a scan with `break` started at index k confirms: the lowest confirmed line at or above k. */
  function FirstConfirmedFrom(first: seq<Level>, second: seq<Level>, k: nat): Option<nat>
    requires |first| == |second| && k <= |first|
    decreases |first| - k
  {
    if k == |first| then None
    else if Confirmed(first, second, k) then Some(k)
    else FirstConfirmedFrom(first, second, k + 1)
  }

  /** The line the setup scan confirms, if any: the lowest confirmed line of the pass. */
  function FirstConfirmed(first: seq<Level>, second: seq<Level>): (r: Option<nat>)
    requires |first| == |second|
    ensures match r
      case Some(i) =>
        i < |first| && Confirmed(first, second, i) && forall j :: 0 <= j < i ==> !Confirmed(first, second, j)
      case None => forall j :: 0 <= j < |first| ==> !Confirmed(first, second, j)
  {
    FirstConfirmedFromLowest(first, second, 0);
    FirstConfirmedFrom(first, second, 0)
  }

  /** The lines a scan without `break` started at index k confirms, in the order it handles them. */
  function ConfirmedFrom(first: seq<Level>, second: seq<Level>, k: nat): seq<nat>
    requires |first| == |second| && k <= |first|
    decreases |first| - k
  {
    if k == |first| then []
    else (if Confirmed(first, second, k) then [k] else []) + ConfirmedFrom(first, second, k + 1)
  }

  /** The lines the loop scan handles in one pass: every confirmed line, once, in ascending order. */
  function ConfirmedAll(first: seq<Level>, second: seq<Level>): (r: seq<nat>)
    requires |first| == |second|
    ensures forall x: nat :: x in r <==> x < |first| && Confirmed(first, second, x)
    ensures forall a, b :: 0 <= a < b < |r| ==> r[a] < r[b]
  {
    ConfirmedFromSpec(first, second, 0);
    ConfirmedFrom(first, second, 0)
  }

  /** The scan with `break` finds the lowest confirmed index at or above k, skipping lines that were noise. */
  lemma {:induction false} FirstConfirmedFromLowest(first: seq<Level>, second: seq<Level>, k: nat)
    requires |first| == |second| && k <= |first|
    ensures match FirstConfirmedFrom(first, second, k)
      case Some(i) =>
        k <= i < |first| && Confirmed(first, second, i) &&
        forall j :: k <= j < i ==> !Confirmed(first, second, j)
      case None =>
        forall j :: k <= j < |first| ==> !Confirmed(first, second, j)
    decreases |first| - k
  {
    if k < |first| && !Confirmed(first, second, k) {
      FirstConfirmedFromLowest(first, second, k + 1);
    }
  }

  /**
   * The setup scan confirms line i exactly when i is confirmed and no lower
   * line is; it confirms nothing exactly when no line is confirmed.
   */
  lemma FirstConfirmedSpec(first: seq<Level>, second: seq<Level>)
    requires |first| == |second|
    ensures forall i :: 0 <= i < |first| ==>
      (FirstConfirmed(first, second) == Some(i) <==>
        Confirmed(first, second, i) && forall j :: 0 <= j < i ==> !Confirmed(first, second, j))
    ensures FirstConfirmed(first, second) == None <==>
      forall j :: 0 <= j < |first| ==> !Confirmed(first, second, j)
  {
    FirstConfirmedFromLowest(first, second, 0);
  }

  /**
   * The scan without `break` handles exactly the confirmed lines at or above k,
   * each once, in strictly ascending index order.
   */
  lemma {:induction false} ConfirmedFromSpec(first: seq<Level>, second: seq<Level>, k: nat)
    requires |first| == |second| && k <= |first|
    ensures forall x :: x in ConfirmedFrom(first, second, k) <==>
      k <= x < |first| && Confirmed(first, second, x)
    ensures forall a, b :: 0 <= a < b < |ConfirmedFrom(first, second, k)| ==>
      ConfirmedFrom(first, second, k)[a] < ConfirmedFrom(first, second, k)[b]
    decreases |first| - k
  {
    if k < |first| {
      var rest := ConfirmedFrom(first, second, k + 1);
      ConfirmedFromSpec(first, second, k + 1);
      if Confirmed(first, second, k) {
        var r := [k] + rest;
        assert r == ConfirmedFrom(first, second, k);
        forall a, b | 0 <= a < b < |r| ensures r[a] < r[b] {
          if a == 0 {
            assert r[b] == rest[b - 1] && rest[b - 1] in rest;
          } else {
            assert r[a] == rest[a - 1] && r[b] == rest[b - 1];
          }
        }
      }
    }
  }

  /** The line the setup scan stops at is the first line the loop scan handles. */
  lemma {:induction false} FirstConfirmedIsFirstHandled(first: seq<Level>, second: seq<Level>, k: nat)
    requires |first| == |second| && k <= |first|
    ensures FirstConfirmedFrom(first, second, k) ==
      if ConfirmedFrom(first, second, k) == [] then None else Some(ConfirmedFrom(first, second, k)[0])
    decreases |first| - k
  {
    if k < |first| && !Confirmed(first, second, k) {
      FirstConfirmedIsFirstHandled(first, second, k + 1);
    }
  }
}
