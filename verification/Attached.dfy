/** The list of attached consoles, in which one is looked up by its handle and taken out. */
module Attached {

  /** The place of the first of these handles that is the one looked for, or their number. */
  function FirstWith(handles: seq<nat>, handle: nat): (k: nat)
    ensures k <= |handles|
    ensures k < |handles| ==> handles[k] == handle
    ensures forall j :: 0 <= j < k ==> handles[j] != handle
  {
    if handles == [] || handles[0] == handle then 0 else 1 + FirstWith(handles[1..], handle)
  }

  function Without<T>(s: seq<T>, k: nat): (r: seq<T>)
    ensures k >= |s| ==> r == s
    ensures k < |s| ==> |r| == |s| - 1 && forall i :: 0 <= i < |r| ==> r[i] == if i < k then s[i] else s[i + 1]
  {
    if k < |s| then s[..k] + s[k + 1..] else s
  }

  /** A console as the splitter lists it: its handle, and what is known of its device. */
  datatype Console<+T> = Console(handle: nat, device: T)

  function Handles<T>(consoles: seq<Console<T>>): (handles: seq<nat>)
    ensures |handles| == |consoles|
  {
    seq(|consoles|, k requires 0 <= k < |consoles| => consoles[k].handle)
  }

  /** The consoles without the first one that has this handle. */
  function Removed<T>(consoles: seq<Console<T>>, handle: nat): (rest: seq<Console<T>>) {
    Without(consoles, FirstWith(Handles(consoles), handle))
  }

  method FindFirst<T>(consoles: seq<Console<T>>, handle: nat) returns (index: nat)
    ensures index == FirstWith(Handles(consoles), handle)
  {
    index := 0;
    while index < |consoles| && consoles[index].handle != handle
      invariant index <= |consoles|
      invariant forall j :: 0 <= j < index ==> Handles(consoles)[j] != handle
    {
      index := index + 1;
    }
    assert index < |consoles| ==> Handles(consoles)[index] == handle;
  }
}
