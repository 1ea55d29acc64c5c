/**
 * The OpenCL view of LLVM address spaces and calling conventions used by the
 * cost-relation engine (AMDGPU address-space numbering).
 */
module LlvmHelper {

  datatype OpenclAddressSpaceType = Generic | Global | Region | Local | Constant | Private

  /** `getOpenclAddrSpaceType`: ids 0 to 5 in enum order, anything else is generic. */
  function OpenclAddrSpaceType(addrSpaceId: nat): OpenclAddressSpaceType
  {
    if addrSpaceId == 0 then Generic
    else if addrSpaceId == 1 then Global
    else if addrSpaceId == 2 then Region
    else if addrSpaceId == 3 then Local
    else if addrSpaceId == 4 then Constant
    else if addrSpaceId == 5 then Private
    else Generic
  }

  /** The id an address-space type is numbered with. */
  function AddrSpaceId(t: OpenclAddressSpaceType): (id: nat)
    ensures id <= 5
  {
    match t
    case Generic => 0
    case Global => 1
    case Region => 2
    case Local => 3
    case Constant => 4
    case Private => 5
  }

  /** Ids 0 to 5 and the six types are in one-to-one correspondence. */
  lemma AddrSpaceRoundTrip(t: OpenclAddressSpaceType, id: nat)
    ensures OpenclAddrSpaceType(AddrSpaceId(t)) == t
    ensures id <= 5 ==> AddrSpaceId(OpenclAddrSpaceType(id)) == id
    ensures id > 5 ==> OpenclAddrSpaceType(id) == Generic
  {
  }

  /** Only id 3 is local and only id 1 is global. */
  lemma LocalAndGlobalIds(id: nat)
    ensures OpenclAddrSpaceType(id) == Local <==> id == 3
    ensures OpenclAddrSpaceType(id) == Global <==> id == 1
  {
  }

  /** LLVM's calling-convention ids for kernels. */
  const PtxKernel: nat := 71
  const SpirKernel: nat := 76
  const AmdgpuKernel: nat := 91

  /** `isKernelFunction`: a kernel is recognised by its calling convention alone. */
  function IsKernelFunction(callingConv: nat): (b: bool)
    ensures b <==> callingConv in {AmdgpuKernel, PtxKernel, SpirKernel}
  {
    callingConv == AmdgpuKernel || callingConv == PtxKernel || callingConv == SpirKernel
  }
}
