/** Powers of two. */
module Powers {
  function Power(k: nat): (p: nat)
    ensures p > 0
  {
    if k == 0 then 1 else 2 * Power(k - 1)
  }

  lemma {:induction false} PowerSum(j: nat, k: nat)
    ensures Power(j + k) == Power(j) * Power(k)
  {
    if j == 0 {
    } else {
      PowerSum(j - 1, k);
      assert Power(j + k) == 2 * Power(j - 1 + k);
      assert 2 * (Power(j - 1) * Power(k)) == (2 * Power(j - 1)) * Power(k);
    }
  }

  lemma PowerEight()
    ensures Power(3) == 8 && Power(8) == 0x100
  {
    assert Power(4) == 2 * (2 * (2 * (2 * Power(0))));
    assert Power(8) == 2 * (2 * (2 * (2 * Power(4))));
    assert Power(4) == 2 * Power(3);
  }

  lemma PowerSixteen()
    ensures Power(16) == 0x1_0000
  {
    PowerEight();
    PowerSum(8, 8);
    hide Power;
  }

  lemma PowerThirtyTwo()
    ensures Power(32) == 0x1_0000_0000
  {
    PowerSixteen();
    PowerSum(16, 16);
    hide Power;
  }

  lemma WordPowers()
    ensures Power(32) == 0x1_0000_0000
    ensures Power(63) == 0x8000_0000_0000_0000 && Power(64) == 0x1_0000_0000_0000_0000
  {
    PowerThirtyTwo();
    PowerSum(32, 32);
    assert Power(64) == 2 * Power(63);
    hide Power;
  }

  lemma {:induction false} PowerGrows(j: nat, k: nat)
    requires j <= k
    ensures Power(j) <= Power(k)
  {
    if j < k { PowerGrows(j, k - 1); }
  }
}
