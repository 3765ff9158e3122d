/** What several modules pass around. */
module Frames {
  datatype Option<+T> = None | Some(value: T) {
    function GetOr(default: T): T { if Some? then value else default }
  }

  /** A CAN frame, told apart by an id and its payload. */
  datatype Frame = Frame(id: nat, payload: seq<bv8>)

  /** Payload size of each data length code, as in the control field of ISO 11898-1. */
  const DLC_TO_LEN: seq<nat> := [0, 1, 2, 3, 4, 5, 6, 7, 8, 12, 16, 20, 24, 32, 48, 64]

  lemma LongestPayload(code: nat)
    requires code < 16
    ensures DLC_TO_LEN[code] <= 64
  {
    var t := DLC_TO_LEN;
    assert t[0] <= 64 && t[1] <= 64 && t[2] <= 64 && t[3] <= 64 && t[4] <= 64 && t[5] <= 64 && t[6] <= 64 && t[7] <= 64;
    assert t[8] <= 64 && t[9] <= 64 && t[10] <= 64 && t[11] <= 64;
    assert t[12] <= 64 && t[13] <= 64 && t[14] <= 64 && t[15] <= 64;
  }

  type Byte = b: int | 0 <= b < 256

  function One(b: bool): nat { if b then 1 else 0 }

  lemma Assoc<T>(a: seq<T>, b: seq<T>, c: seq<T>)
    ensures (a + b) + c == a + (b + c)
  {
  }
}
