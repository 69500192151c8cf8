/** The addition chain for fifth roots that the Rescue, Anemoi and Griffin permutations share. */
module AdditionChain {
  import opened Algebra

  // The order r of section 4.2.1 of draft-irtf-cfrg-pairing-friendly-curves, and the exponent.
  const ORDER: nat := 52435875175126190479447740508185965837690552500527637822603658699938581184513
  const ALPHA_INV: nat := 20974350070050476191779096203274386335076221000211055129041463479975432473805

  function Fifth<S(!new)>(r: Ring<S>, x: S): S { r.mul(r.Sqr(r.Sqr(x)), x) }

  // The exponents the first 22 cells of the scratch array stand for.
  const TABLE: seq<nat> :=
    [2, 4, 5, 7, 10, 11, 13, 15, 17, 19, 23, 33, 35, 37, 39, 43, 47, 51, 53, 57, 61, 92]

  ghost predicate Prepared<S(!new)>(r: Ring<S>, tmp: seq<S>, x: S) {
    |tmp| == 36 && forall k :: 0 <= k < 22 ==> tmp[k] == Pow(r, x, TABLE[k])
  }

  lemma Product<S(!new)>(r: Ring<S>, x: S, i: nat, j: nat, a: S, b: S)
    requires CommRing(r) && a == Pow(r, x, i) && b == Pow(r, x, j)
    ensures r.mul(a, b) == Pow(r, x, i + j)
  {
    PowAdd(r, x, i, j);
  }

  // tmp[dst] := a * b
  method Put<S(!new)>(r: Ring<S>, tmp: array<S>, dst: nat, a: S, b: S, ghost x: S, ghost i: nat, ghost j: nat)
    requires CommRing(r) && dst < tmp.Length && a == Pow(r, x, i) && b == Pow(r, x, j)
    modifies tmp
    ensures tmp[..] == old(tmp[..])[dst := Pow(r, x, i + j)]
  {
    Product(r, x, i, j, a, b);
    tmp[dst] := r.mul(a, b);
  }

  method PrepareSmall<S(!new)>(r: Ring<S>, tmp: array<S>, x: S)
    requires CommRing(r) && tmp.Length == 36
    modifies tmp
    ensures forall k :: 0 <= k < 12 ==> tmp[k] == Pow(r, x, TABLE[k])
  {
    hide Pow;
    PowOne(r, x);
    Put(r, tmp, 0, x, x, x, 1, 1);
    Put(r, tmp, 1, tmp[0], tmp[0], x, 2, 2);
    Put(r, tmp, 2, x, tmp[1], x, 1, 4);
    Put(r, tmp, 3, tmp[0], tmp[2], x, 2, 5);
    Put(r, tmp, 4, tmp[2], tmp[2], x, 5, 5);
    Put(r, tmp, 5, x, tmp[4], x, 1, 10);
    Put(r, tmp, 6, tmp[0], tmp[5], x, 2, 11);
    Put(r, tmp, 7, tmp[0], tmp[6], x, 2, 13);
    Put(r, tmp, 8, tmp[0], tmp[7], x, 2, 15);
    Put(r, tmp, 9, tmp[0], tmp[8], x, 2, 17);
    Put(r, tmp, 10, tmp[1], tmp[9], x, 4, 19);
    Put(r, tmp, 11, tmp[4], tmp[10], x, 10, 23);
  }

  method Prepare<S(!new)>(r: Ring<S>, tmp: array<S>, x: S)
    requires CommRing(r) && tmp.Length == 36
    modifies tmp
    ensures Prepared(r, tmp[..], x)
  {
    hide Pow;
    PrepareSmall(r, tmp, x);
    Put(r, tmp, 12, tmp[0], tmp[11], x, 2, 33);
    Put(r, tmp, 13, tmp[0], tmp[12], x, 2, 35);
    Put(r, tmp, 14, tmp[0], tmp[13], x, 2, 37);
    Put(r, tmp, 15, tmp[1], tmp[14], x, 4, 39);
    Put(r, tmp, 16, tmp[1], tmp[15], x, 4, 43);
    Put(r, tmp, 17, tmp[1], tmp[16], x, 4, 47);
    Put(r, tmp, 18, tmp[0], tmp[17], x, 2, 51);
    Put(r, tmp, 19, tmp[1], tmp[18], x, 4, 53);
    Put(r, tmp, 20, tmp[1], tmp[19], x, 4, 57);
    Put(r, tmp, 21, tmp[12], tmp[19], x, 35, 57);
  }

  const POWERS_OF_TWO: seq<nat> := [1, 2, 4, 8, 16, 32, 64, 128, 256, 512, 1024, 2048, 4096, 8192, 16384, 32768]

  lemma NextPower(i: nat)
    requires i < 15
    ensures POWERS_OF_TWO[i + 1] == 2 * POWERS_OF_TWO[i]
  {
  }

  /** Squares tmp[acc] n times in place, then puts its product with the factor into tmp[dst]. */
  method Step<S(!new)>(r: Ring<S>, tmp: array<S>, acc: nat, n: nat, factor: S, dst: nat, ghost x: S, ghost e: nat, ghost f: nat)
    returns (ghost e': nat)
    requires CommRing(r) && Prepared(r, tmp[..], x) && 22 <= acc < 36 && 22 <= dst < 36 && n < 16
    requires tmp[acc] == Pow(r, x, e) && factor == Pow(r, x, f)
    modifies tmp
    ensures Prepared(r, tmp[..], x) && e' == e * POWERS_OF_TWO[n] + f && tmp[dst] == Pow(r, x, e')
  {
    hide Pow;
    e' := e;
    for i := 0 to n
      invariant Prepared(r, tmp[..], x) && e' == e * POWERS_OF_TWO[i] && tmp[acc] == Pow(r, x, e')
    {
      NextPower(i);
      Twice(e, POWERS_OF_TWO[i]);
      Product(r, x, e', e', tmp[acc], tmp[acc]);
      tmp[acc] := r.Sqr(tmp[acc]);
      e' := 2 * e';
    }
    Product(r, x, e', f, tmp[acc], factor);
    tmp[dst] := r.mul(tmp[acc], factor);
    e' := e' + f;
  }

  lemma Twice(e: int, p: int)
    ensures e * (2 * p) == 2 * (e * p)
  {
  }

  // Cells 22 to 23.
  method Segment1<S(!new)>(r: Ring<S>, tmp: array<S>, x: S)
    requires CommRing(r) && Prepared(r, tmp[..], x) && tmp[21] == Pow(r, x, 92)
    modifies tmp
    ensures Prepared(r, tmp[..], x) && tmp[23] == Pow(r, x, 49790840503)
  {
    hide Pow;
    ghost var e := 92;
    tmp[22] := tmp[21];
    e := Step(r, tmp, 22, 6, tmp[16], 22, x, e, 47);
    e := Step(r, tmp, 22, 6, tmp[11], 22, x, e, 33);
    e := Step(r, tmp, 22, 6, tmp[20], 23, x, e, 61);
    e := Step(r, tmp, 23, 6, tmp[18], 23, x, e, 53);
    e := Step(r, tmp, 23, 5, tmp[10], 23, x, e, 23);
  }

  // Cells 24 to 25.
  method Segment2<S(!new)>(r: Ring<S>, tmp: array<S>, x: S)
    requires CommRing(r) && Prepared(r, tmp[..], x) && tmp[23] == Pow(r, x, 49790840503)
    modifies tmp
    ensures Prepared(r, tmp[..], x) && tmp[25] == Pow(r, x, 855400126409159613665)
  {
    hide Pow;
    ghost var e := 49790840503;
    tmp[24] := tmp[23];
    e := Step(r, tmp, 24, 6, tmp[10], 24, x, e, 23);
    e := Step(r, tmp, 24, 8, tmp[12], 24, x, e, 35);
    e := Step(r, tmp, 24, 8, tmp[11], 25, x, e, 33);
    e := Step(r, tmp, 25, 6, tmp[17], 25, x, e, 51);
    e := Step(r, tmp, 25, 6, tmp[11], 25, x, e, 33);
  }

  // Cells 26 to 27.
  method Segment3<S(!new)>(r: Ring<S>, tmp: array<S>, x: S)
    requires CommRing(r) && Prepared(r, tmp[..], x) && tmp[25] == Pow(r, x, 855400126409159613665)
    modifies tmp
    ensures Prepared(r, tmp[..], x) && tmp[27] == Pow(r, x, 29391324543372851644291335015659)
  {
    hide Pow;
    ghost var e := 855400126409159613665;
    tmp[26] := tmp[25];
    e := Step(r, tmp, 26, 7, tmp[13], 26, x, e, 37);
    e := Step(r, tmp, 26, 8, tmp[15], 26, x, e, 43);
    e := Step(r, tmp, 26, 6, tmp[6], 27, x, e, 13);
    e := Step(r, tmp, 27, 8, tmp[17], 27, x, e, 51);
    e := Step(r, tmp, 27, 6, tmp[15], 27, x, e, 43);
  }

  // Cells 28 to 29.
  method Segment4<S(!new)>(r: Ring<S>, tmp: array<S>, x: S)
    requires CommRing(r) && Prepared(r, tmp[..], x) && tmp[27] == Pow(r, x, 29391324543372851644291335015659)
    modifies tmp
    ensures Prepared(r, tmp[..], x) && tmp[29] == Pow(r, x, 2019756443198536501543857743815003661734077)
  {
    hide Pow;
    ghost var e := 29391324543372851644291335015659;
    tmp[28] := tmp[27];
    e := Step(r, tmp, 28, 6, tmp[14], 28, x, e, 39);
    e := Step(r, tmp, 28, 3, tmp[3], 28, x, e, 7);
    e := Step(r, tmp, 28, 15, tmp[8], 29, x, e, 17);
    PowOne(r, x);
    e := Step(r, tmp, 29, 5, x, 29, x, e, 1);
    e := Step(r, tmp, 29, 7, tmp[20], 29, x, e, 61);
  }

  // Cells 30 to 31.
  method Segment5<S(!new)>(r: Ring<S>, tmp: array<S>, x: S)
    requires CommRing(r) && Prepared(r, tmp[..], x) && tmp[29] == Pow(r, x, 2019756443198536501543857743815003661734077)
    modifies tmp
    ensures Prepared(r, tmp[..], x) && tmp[31] == Pow(r, x, 2168696967355748977298280629840446750317029555499827)
  {
    hide Pow;
    ghost var e := 2019756443198536501543857743815003661734077;
    tmp[30] := tmp[29];
    e := Step(r, tmp, 30, 1, tmp[2], 30, x, e, 5);
    e := Step(r, tmp, 30, 10, tmp[19], 30, x, e, 57);
    e := Step(r, tmp, 30, 6, tmp[14], 31, x, e, 39);
    e := Step(r, tmp, 31, 5, tmp[9], 31, x, e, 19);
    e := Step(r, tmp, 31, 8, tmp[17], 31, x, e, 51);
  }

  // Cells 32 to 33.
  method Segment6<S(!new)>(r: Ring<S>, tmp: array<S>, x: S)
    requires CommRing(r) && Prepared(r, tmp[..], x) && tmp[31] == Pow(r, x, 2168696967355748977298280629840446750317029555499827)
    modifies tmp
    ensures Prepared(r, tmp[..], x) && tmp[33] == Pow(r, x, 1192253766365097146250439903000960062802063305310358323881784115)
  {
    hide Pow;
    ghost var e := 2168696967355748977298280629840446750317029555499827;
    tmp[32] := tmp[31];
    e := Step(r, tmp, 32, 7, tmp[7], 32, x, e, 15);
    e := Step(r, tmp, 32, 9, tmp[17], 32, x, e, 51);
    e := Step(r, tmp, 32, 7, tmp[9], 33, x, e, 19);
    e := Step(r, tmp, 33, 8, tmp[17], 33, x, e, 51);
    e := Step(r, tmp, 33, 8, tmp[17], 33, x, e, 51);
  }

  // Cells 34 to 35.
  method Segment7<S(!new)>(r: Ring<S>, tmp: array<S>, x: S)
    requires CommRing(r) && Prepared(r, tmp[..], x) && tmp[33] == Pow(r, x, 1192253766365097146250439903000960062802063305310358323881784115)
    modifies tmp
    ensures Prepared(r, tmp[..], x) && tmp[35] == Pow(r, x, 327724219844538690496548378176162286485565953128297736391272866874616132403)
  {
    hide Pow;
    ghost var e := 1192253766365097146250439903000960062802063305310358323881784115;
    tmp[34] := tmp[33];
    e := Step(r, tmp, 34, 8, tmp[17], 34, x, e, 51);
    e := Step(r, tmp, 34, 6, tmp[5], 34, x, e, 11);
    e := Step(r, tmp, 34, 8, tmp[17], 35, x, e, 51);
    e := Step(r, tmp, 35, 8, tmp[17], 35, x, e, 51);
    e := Step(r, tmp, 35, 8, tmp[17], 35, x, e, 51);
  }

  /** The addition chain computes the power with exponent ALPHA_INV. */
  method AlphaInv<S(!new)>(r: Ring<S>, x: S) returns (res: S)
    requires CommRing(r)
    ensures res == Pow(r, x, ALPHA_INV)
  {
    hide Pow;
    var tmp := new S[36](_ => x);
    Prepare(r, tmp, x);
    assert tmp[21] == Pow(r, x, 92);
    Segment1(r, tmp, x);
    Segment2(r, tmp, x);
    Segment3(r, tmp, x);
    Segment4(r, tmp, x);
    Segment5(r, tmp, x);
    Segment6(r, tmp, x);
    Segment7(r, tmp, x);
    ghost var e := Step(r, tmp, 35, 6, tmp[6], 35, x, 327724219844538690496548378176162286485565953128297736391272866874616132403, 13);
    res := tmp[35];
  }

  // ---------------------------------------------------------------- the power is a fifth root

  lemma FifthIsPower<S(!new)>(r: Ring<S>, x: S)
    requires CommRing(r)
    ensures Fifth(r, x) == Pow(r, x, 5)
  {
    hide Pow;
    PowOne(r, x);
    Product(r, x, 1, 1, x, x);
    Product(r, x, 2, 2, r.Sqr(x), r.Sqr(x));
    Product(r, x, 4, 1, r.Sqr(r.Sqr(x)), x);
  }

  // Fermat's little theorem for a field of prime order p.
  ghost predicate Fermat<S(!new)>(r: Ring<S>, p: nat) {
    forall x: S {:trigger On(x, x, x)} | On(x, x, x) :: x != r.zero ==> Pow(r, x, p - 1) == r.one
  }

  lemma PowersCancel<S(!new)>(r: Ring<S>, x: S, p: nat, e: nat)
    requires CommRing(r) && Fermat(r, p) && p > 1 && 5 * e == 2 * (p - 1) + 1
    ensures Pow(r, x, 5 * e) == x
  {
    hide Pow;
    if x == r.zero {
      ZeroPow(r, 5 * e);
    } else {
      assert On(x, x, x);
      PowOne(r, x);
      MulOne(r, r.one);
      MulOne(r, x);
      PowAdd(r, x, p - 1, p - 1);
      PowAdd(r, x, 2 * (p - 1), 1);
    }
  }

  lemma RootOf<S(!new)>(r: Ring<S>, x: S, p: nat, e: nat)
    requires CommRing(r) && Fermat(r, p) && p > 1 && 5 * e == 2 * (p - 1) + 1
    ensures Fifth(r, Pow(r, x, e)) == x && Pow(r, Fifth(r, x), e) == x
  {
    hide Pow, Fifth;
    PowersCancel(r, x, p, e);
    FifthIsPower(r, x);
    FifthIsPower(r, Pow(r, x, e));
    PowPow(r, x, e, 5);
    PowPow(r, x, 5, e);
    assert e * 5 == 5 * e;
  }

  // The fifth power and the given function undo each other.
  ghost predicate FifthRoot<S(!new)>(r: Ring<S>, root: S -> S) {
    forall x: S {:trigger On(x, x, x)} | On(x, x, x) :: Fifth(r, root(x)) == x && root(Fifth(r, x)) == x
  }

  lemma Undone<S(!new)>(r: Ring<S>, root: S -> S, x: S)
    requires FifthRoot(r, root)
    ensures Fifth(r, root(x)) == x && root(Fifth(r, x)) == x
  {
    assert On(x, x, x);
  }

  // What the addition chain computes.
  function ChainRoot<S(!new)>(r: Ring<S>): S -> S { x => Pow(r, x, ALPHA_INV) }

  /** In a field of this order the power computed by the addition chain is a two-sided inverse of the
      fifth power. */
  lemma ChainIsFifthRoot<S(!new)>(r: Ring<S>)
    requires CommRing(r) && Fermat(r, ORDER)
    ensures FifthRoot(r, ChainRoot(r))
  {
    hide Pow, Fifth;
    forall x: S {:trigger On(x, x, x)} | On(x, x, x)
      ensures Fifth(r, ChainRoot(r)(x)) == x && ChainRoot(r)(Fifth(r, x)) == x
    {
      RootOf(r, x, ORDER, ALPHA_INV);
    }
  }
}
