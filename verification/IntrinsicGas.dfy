/** The gas a transaction pays before it runs (core/state_transition.go). */
module IntrinsicGas {
  import opened Basics

  const TX_GAS: nat := 21000
  const TX_GAS_CREATION: nat := 53000
  const ZERO_BYTE_GAS: nat := 4
  const NON_ZERO_BYTE_GAS: nat := 68

  function ByteGas(b: int): (g: nat)
  {
    if b == 0 then ZERO_BYTE_GAS else NON_ZERO_BYTE_GAS
  }

  /** Price of the data, byte by byte and without a width. */
  function DataGas(data: seq<int>): (g: nat)
  {
    if |data| == 0 then 0 else DataGas(data[..|data| - 1]) + ByteGas(data[|data| - 1])
  }

  function BaseGas(creation: bool, homestead: bool): (g: nat)
  {
    if creation && homestead then TX_GAS_CREATION else TX_GAS
  }

  function Intrinsic(data: seq<int>, creation: bool, homestead: bool): (g: nat)
  {
    BaseGas(creation, homestead) + DataGas(data)
  }

  /** The 64-bit computation gives the price without a width, or fails if that does not fit. */
  method ComputeIntrinsic(data: seq<int>, creation: bool, homestead: bool) returns (r: Option<nat>)
    ensures r == if Intrinsic(data, creation, homestead) < U64 then Some(Intrinsic(data, creation, homestead)) else None
  {
    var gas := if creation && homestead then TX_GAS_CREATION else TX_GAS;
    if |data| > 0 {
      var nz: nat := 0;
      for i := 0 to |data|
        invariant nz <= i && DataGas(data[..i]) == nz * NON_ZERO_BYTE_GAS + (i - nz) * ZERO_BYTE_GAS
      {
        assert data[..i + 1][..i] == data[..i];
        if data[i] != 0 {
          nz := nz + 1;
        }
      }
      assert data[..|data|] == data;
      if (U64 - 1 - gas) / NON_ZERO_BYTE_GAS < nz {
        return None;
      }
      gas := gas + nz * NON_ZERO_BYTE_GAS;
      var z := |data| - nz;
      if (U64 - 1 - gas) / ZERO_BYTE_GAS < z {
        return None;
      }
      gas := gas + z * ZERO_BYTE_GAS;
    }
    return Some(gas);
  }
}
