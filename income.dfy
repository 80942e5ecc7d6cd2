/** The income bands of the lead form and the dashboard's three readings of a band:
    `getIncomeScore`, `isQualifiedLead` and `isHighIncomeLead` (src/components/Dashboard.tsx). */
module Income {

  /** The band codes of `incomeLabels`, lowest first. */
  const Bands: seq<string> := [
    "menos_do_que_r$3.000",
    "r$3.000_a_r$5.999",
    "r$6.000_a_r$9.999",
    "r$10.000_a_r$14.999",
    "r$15.000_a_r$19.999",
    "r$20.000_a_r$29.999",
    "acima_de_r$30.000"
  ]

  /** `getIncomeScore`: the band's rank 1..7 looked up in the score table, 0 for any other string. */
  function IncomeScore(income: string): (n: nat)
    ensures n <= 7
    ensures n == 0 <==> income !in Bands
    ensures n > 0 ==> Bands[n - 1] == income
  {
    if income == Bands[0] then 1
    else if income == Bands[1] then 2
    else if income == Bands[2] then 3
    else if income == Bands[3] then 4
    else if income == Bands[4] then 5
    else if income == Bands[5] then 6
    else if income == Bands[6] then 7
    else 0
  }

  /** `isQualifiedLead`: one of the five bands from R$ 6.000 up. */
  predicate IsQualified(income: string) {
    income == "r$6.000_a_r$9.999" || income == "r$10.000_a_r$14.999"
    || income == "r$15.000_a_r$19.999" || income == "r$20.000_a_r$29.999" || income == "acima_de_r$30.000"
  }

  /** `isHighIncomeLead`: one of the four bands from R$ 10.000 up. */
  predicate IsHighIncome(income: string) {
    income == "r$10.000_a_r$14.999" || income == "r$15.000_a_r$19.999"
    || income == "r$20.000_a_r$29.999" || income == "acima_de_r$30.000"
  }

  /** The seven bands are distinct, so a band's score is its position. */
  lemma BandsDistinct()
    ensures forall i, j :: 0 <= i < j < |Bands| ==> Bands[i] != Bands[j]
  {
    assert Bands[0][0] == 'm' && Bands[6][0] == 'a';
    assert Bands[1][2] == '3' && Bands[2][2] == '6' && Bands[3][2] == '1';
    assert Bands[4][2] == '1' && Bands[5][2] == '2' && Bands[3][3] == '0' && Bands[4][3] == '5';
    forall i, j | 0 <= i < j < |Bands| ensures Bands[i] != Bands[j] {
      if i == 0 || j == 6 {
        assert Bands[i][0] != Bands[j][0];
      } else if i == 3 && j == 4 {
        assert Bands[i][3] != Bands[j][3];
      } else {
        assert Bands[i][2] != Bands[j][2];
      }
    }
  }

  /** The band at position `k` scores `k + 1`. */
  lemma ScoreOfBand(k: nat)
    requires k < |Bands|
    ensures IncomeScore(Bands[k]) == k + 1
  {
    BandsDistinct();
  }

  /** A qualified lead is one whose band scores at least 3. */
  lemma QualifiedIffScore(income: string)
    ensures IsQualified(income) <==> IncomeScore(income) >= 3
  {
    if IncomeScore(income) > 0 {
      ScoreOfBand(IncomeScore(income) - 1);
    }
  }

  /** A high-income lead is one whose band scores at least 4. */
  lemma HighIncomeIffScore(income: string)
    ensures IsHighIncome(income) <==> IncomeScore(income) >= 4
  {
    if IncomeScore(income) > 0 {
      ScoreOfBand(IncomeScore(income) - 1);
    }
  }

  /** Every high-income lead is a qualified lead. */
  lemma HighIncomeIsQualified(income: string)
    requires IsHighIncome(income)
    ensures IsQualified(income)
  {
  }
}
