/** Parameters of ML-KEM, and its hashes and samplers as total functions. */
module KemModel {
  import opened MachineInts
  import opened KemConstants

  type UniformPoly = s: seq<int> | |s| == 256 && (forall i :: 0 <= i < 256 ==> 0 <= s[i] < Q)
    witness seq(256, _ => 0)

  type NoisePoly = s: seq<int> | |s| == 256 && (forall i :: 0 <= i < 256 ==> -3 <= s[i] <= 3)
    witness seq(256, _ => 0)

  type Bytes32 = s: seq<uint8> | |s| == 32 witness seq(32, _ => 0)

  type Bytes64 = s: seq<uint8> | |s| == 64 witness seq(64, _ => 0)

  /**
   SHA3-512, SHA3-256, SHAKE256 cut to 32 bytes, the rejection sampler of a 34-byte seed, and the noise sampler of a
   seed, a nonce and eta.
   */
  datatype Oracle = Oracle(
    sha3_512: seq<uint8> -> Bytes64,
    sha3_256: seq<uint8> -> Bytes32,
    shake256: seq<uint8> -> Bytes32,
    uniform: seq<uint8> -> UniformPoly,
    noise: (seq<uint8>, nat, int) -> NoisePoly)
  {
    /** Row i of the public matrix, in the transform domain. */
    function Row(rho: seq<uint8>, i: uint8, k: nat): (r: seq<seq<int>>)
      requires k <= 4
      ensures |r| == k && forall j :: 0 <= j < k ==> |r[j]| == 256
    {
      var r := seq(k, j requires 0 <= j < k => uniform(rho + [j, i]));
      assert forall j :: 0 <= j < k ==> r[j] == uniform(rho + [j, i]);
      r
    }

    /** Row i of its transpose. */
    function Column(rho: seq<uint8>, i: uint8, k: nat): (r: seq<seq<int>>)
      requires k <= 4
      ensures |r| == k && forall j :: 0 <= j < k ==> |r[j]| == 256
    {
      var r := seq(k, j requires 0 <= j < k => uniform(rho + [i, j]));
      assert forall j :: 0 <= j < k ==> r[j] == uniform(rho + [i, j]);
      r
    }

    /** n noise polynomials with nonces from, from + 1, ... */
    function NoiseVec(seed: seq<uint8>, from: nat, n: nat, eta: int): (r: seq<seq<int>>)
      ensures |r| == n && forall j :: 0 <= j < n ==> |r[j]| == 256 && r[j] == noise(seed, from + j, eta)
    {
      var r := seq(n, j requires 0 <= j < n => noise(seed, from + j, eta));
      assert forall j :: 0 <= j < n ==> r[j] == noise(seed, from + j, eta);
      r
    }
  }

  datatype Params = Params(k: nat, eta1: int, eta2: int, du: nat, dv: nat)

  const ML_KEM_768: Params := Params(3, 2, 2, 10, 4)
  const ML_KEM_1024: Params := Params(4, 2, 2, 11, 5)

  /** What encapsulation and decapsulation accept. */
  predicate Valid(p: Params)
  {
    && (p.k == 3 || p.k == 4) && (p.eta1 == 2 || p.eta1 == 3) && p.eta2 == 2
    && (p.du == 10 || p.du == 11) && (p.dv == 4 || p.dv == 5)
  }
}
