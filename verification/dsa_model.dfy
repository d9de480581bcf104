/** Parameters of ML-DSA, and the hash-based samplers as total functions. */
module DsaModel {
  import opened MachineInts
  import opened DsaConstants

  type UniformPoly = s: seq<int> | |s| == 256 && (forall i :: 0 <= i < 256 ==> 0 <= s[i] < Q)
    witness seq(256, _ => 0)

  type Eta2Poly = s: seq<int> | |s| == 256 && (forall i :: 0 <= i < 256 ==> -2 <= s[i] <= 2)
    witness seq(256, _ => 0)

  type Eta4Poly = s: seq<int> | |s| == 256 && (forall i :: 0 <= i < 256 ==> -4 <= s[i] <= 4)
    witness seq(256, _ => 0)

  type TernaryPoly = s: seq<int> | |s| == 256 && (forall i :: 0 <= i < 256 ==> -1 <= s[i] <= 1)
    witness seq(256, _ => 0)

  /**
   The SHAKE256 output stream of an input, and the rejection samplers: a matrix entry from rho and a nonce, a
   small polynomial from rho' and a nonce, the challenge from its seed and the number of its non-zero entries.
   */
  datatype Oracle = Oracle(
    shake256: (seq<uint8>, nat) -> uint8,
    uniform: (seq<uint8>, nat) -> UniformPoly,
    eta2: (seq<uint8>, nat) -> Eta2Poly,
    eta4: (seq<uint8>, nat) -> Eta4Poly,
    challenge: (seq<uint8>, nat) -> TernaryPoly)
  {
    /** The first n output bytes for the input m. */
    function Shake256(m: seq<uint8>, n: nat): (r: seq<uint8>)
      ensures |r| == n
    {
      seq<uint8>(n, i requires 0 <= i < n => shake256(m, i))
    }

    /** Entry (i, j) of the public matrix, in the transform domain. */
    function Entry(rho: seq<uint8>, i: nat, j: nat): (r: UniformPoly)
    {
      uniform(rho, 0x100 * i + j)
    }

    /** Row i of the public matrix. */
    function Row(rho: seq<uint8>, i: nat, l: nat): (r: seq<seq<int>>)
      ensures |r| == l && forall j :: 0 <= j < l ==> r[j] == Entry(rho, i, j) == uniform(rho, 0x100 * i + j)
    {
      seq(l, j requires 0 <= j < l => Entry(rho, i, j))
    }

    function Eta(rhoPrime: seq<uint8>, nonce: nat, eta: int): (r: seq<int>)
      ensures |r| == 256
      ensures eta == 2 || eta == 4 ==> forall i :: 0 <= i < 256 ==> -eta <= r[i] <= eta
    {
      if eta == 2 then eta2(rhoPrime, nonce) else eta4(rhoPrime, nonce)
    }
  }

  /** The arguments the two parameter sets pass to the internal routines. */
  datatype Params = Params(k: nat, l: nat, eta: int, gamma1: int, gamma2: int, tau: nat, omega: nat, ctilde: nat)

  const ML_DSA_65: Params := Params(6, 5, 4, 0x8_0000, 261888, 49, 55, 48)
  const ML_DSA_87: Params := Params(8, 7, 2, 0x8_0000, 261888, 60, 75, 64)

  /**
   The parameter ranges the routines are written for. Verification derives eta from k, so eta is 2 exactly for
   k = 8.
   */
  predicate Valid(p: Params)
  {
    && 0 < p.k <= 8 && 0 < p.l <= 7
    && (p.eta == 2 || p.eta == 4) && (p.eta == 2 <==> p.k == 8)
    && (p.gamma1 == 0x2_0000 || p.gamma1 == 0x8_0000)
    && (p.gamma2 == 261888 || p.gamma2 == 95232)
    && 0 < p.tau <= 64 && 0 < p.omega < 0x100 && 0 < p.ctilde <= 64
  }
}
