/**
 * The income tax calculator: nil tax up to 2.5 lakh, 5% from 2.5 to 5 lakh,
 * 20% from 5 to 10 lakh and 30% above 10 lakh. It returns the total tax and a
 * breakdown with one line per slab the income reaches. Amounts are exact reals.
 */
module IncomeTax {

  /** The tax column of a breakdown line: "Nil" for the first slab, a figure otherwise. */
  datatype SlabTax = Nil | Levy(amount: real)

  /** One breakdown line: slab label, the amount taxed in the slab, rate label, tax. */
  datatype SlabLine = SlabLine(slab: string, amount: real, rate: string, tax: SlabTax)

  const FirstLimit: real := 250000.0
  const SecondLimit: real := 500000.0
  const ThirdLimit: real := 1000000.0

  /** Lower edge, rate and labels of the four slabs, in ascending order. */
  const Lower: seq<real> := [0.0, FirstLimit, SecondLimit, ThirdLimit]
  const Rate: seq<real> := [0.0, 5.0 / 100.0, 20.0 / 100.0, 30.0 / 100.0]
  const SlabLabel: seq<string> := ["0 - 2.5 lac", "2.5 - 5 lac", "5 - 10 lac", "Above 10 lac"]
  const RateLabel: seq<string> := ["Nil", "5%", "20%", "30%"]

  function Min(a: real, b: real): real {
    if a <= b then a else b
  }

  function Max(a: real, b: real): real {
    if a <= b then b else a
  }

  /** The part of `income` lying between `lo` and `hi`. */
  function Band(income: real, lo: real, hi: real): real {
    Max(0.0, Min(income, hi) - lo)
  }

  /** The tax as a sum over slabs: each rate applied to the part of the income
    * inside its slab. */
  function MarginalTax(income: real): real {
    Rate[1] * Band(income, FirstLimit, SecondLimit)
    + Rate[2] * Band(income, SecondLimit, ThirdLimit)
    + Rate[3] * Max(0.0, income - ThirdLimit)
  }

  function TaxFigure(t: SlabTax): real {
    match t
    case Nil => 0.0
    case Levy(a) => a
  }

  function SumAmounts(lines: seq<SlabLine>): real {
    if lines == [] then 0.0 else SumAmounts(lines[..|lines| - 1]) + lines[|lines| - 1].amount
  }

  function SumTax(lines: seq<SlabLine>): real {
    if lines == [] then 0.0 else SumTax(lines[..|lines| - 1]) + TaxFigure(lines[|lines| - 1].tax)
  }

  /** Appending a line adds its amount and its tax to the two sums. */
  lemma SumsAppend(lines: seq<SlabLine>, line: SlabLine)
    ensures SumAmounts(lines + [line]) == SumAmounts(lines) + line.amount
    ensures SumTax(lines + [line]) == SumTax(lines) + TaxFigure(line.tax)
  {
    assert (lines + [line])[..|lines|] == lines;
  }

  /** How many of the three limits the income is above. */
  function LimitsExceeded(income: real): nat {
    (if income > FirstLimit then 1 else 0) + (if income > SecondLimit then 1 else 0) + (if income > ThirdLimit then 1 else 0)
  }

  /** The breakdown line of slab `i`, whose taxed amount is `amount`. */
  function Line(i: nat, amount: real): SlabLine
    requires i < 4
  {
    SlabLine(SlabLabel[i], amount, RateLabel[i], if i == 0 then Nil else Levy(amount * Rate[i]))
  }

  /** `calculate_total_income_tax`: walks the slabs in ascending order, adding a
    * breakdown line and the slab's tax for each slab the income reaches. */
  method CalculateTotalIncomeTax(income: real) returns (tax: real, slabs: seq<SlabLine>)
    ensures tax == MarginalTax(income)
    ensures tax == SumTax(slabs)
    ensures SumAmounts(slabs) == income
    ensures |slabs| == 1 + LimitsExceeded(income)
    ensures slabs[0] == Line(0, Min(income, FirstLimit))
    ensures forall i :: 1 <= i < |slabs| ==>
      slabs[i] == Line(i, if i < 3 then Band(income, Lower[i], Lower[i + 1]) else income - ThirdLimit)
    ensures forall i :: 1 <= i < |slabs| ==> 0.0 < slabs[i].amount
    ensures forall i :: 0 <= i < |slabs| && i < 3 ==> slabs[i].amount <= Lower[i + 1] - Lower[i]
  {
    tax, slabs := 0.0, [];

    if income <= FirstLimit {
      SumsAppend(slabs, Line(0, income));
      slabs := slabs + [Line(0, income)];
    } else {
      SumsAppend(slabs, Line(0, FirstLimit));
      slabs := slabs + [Line(0, FirstLimit)];
    }

    if income > FirstLimit {
      var taxable := Min(income - FirstLimit, FirstLimit);
      tax := tax + taxable * Rate[1];
      SumsAppend(slabs, Line(1, taxable));
      slabs := slabs + [Line(1, taxable)];
    }

    if income > SecondLimit {
      var taxable := Min(income - SecondLimit, SecondLimit);
      tax := tax + taxable * Rate[2];
      SumsAppend(slabs, Line(2, taxable));
      slabs := slabs + [Line(2, taxable)];
    }

    if income > ThirdLimit {
      var taxable := income - ThirdLimit;
      tax := tax + taxable * Rate[3];
      SumsAppend(slabs, Line(3, taxable));
      slabs := slabs + [Line(3, taxable)];
    }
  }

  /** Up to the first limit there is no tax. */
  lemma NoTaxInFirstSlab(income: real)
    requires income <= FirstLimit
    ensures MarginalTax(income) == 0.0
  {
  }

  /** The tax never decreases as the income grows. */
  lemma MarginalTaxMonotone(a: real, b: real)
    requires a <= b
    ensures MarginalTax(a) <= MarginalTax(b)
  {
  }

  /** The tax is never negative and never above the top rate of the income. */
  lemma MarginalTaxBounds(income: real)
    requires income >= 0.0
    ensures 0.0 <= MarginalTax(income) <= Rate[3] * income
  {
  }

  /** An income of 10 lakh pays 12,500 + 1,00,000 = 1,12,500. */
  lemma TaxAtTenLakh()
    ensures MarginalTax(ThirdLimit) == 112500.0
  {
  }
}
