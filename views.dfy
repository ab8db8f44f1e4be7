/**
 * setupBreakdownViewOptions: which granularities the breakdown table offers
 * (none finer than the compounding), and which one it shows first (one
 * suited to the span, or else the finest offered).
 */
module Views {
  import opened Numbers

  /** A granularity of the breakdown table, its caption, and the least compounding frequency that allows it. */
  datatype ViewOption = ViewOption(value: string, text: string, minFreq: int)

  /** Every granularity, finest first. */
  const AllOptions: seq<ViewOption> := [
    ViewOption("daily", "Daily", 365),
    ViewOption("weekly", "Weekly", 52),
    ViewOption("monthly", "Monthly", 12),
    ViewOption("quarterly", "Quarterly", 4),
    ViewOption("annually", "Annually", 1)
  ]

  /** Options listed strictly finest first. */
  predicate FinestFirst(options: seq<ViewOption>)
  {
    forall i, j :: 0 <= i < j < |options| ==> options[i].minFreq > options[j].minFreq
  }

  lemma AllOptionsFinestFirst()
    ensures FinestFirst(AllOptions)
  {
    var o := AllOptions;
    assert o[0].minFreq > o[1].minFreq > o[2].minFreq > o[3].minFreq > o[4].minFreq;
  }

  /** The options a compounding frequency allows, in their listed order. */
  function Available(options: seq<ViewOption>, compoundingFrequency: int): (r: seq<ViewOption>)
    ensures forall o :: o in r <==> o in options && o.minFreq <= compoundingFrequency
    ensures |r| <= |options|
  {
    if options == [] then []
    else
      var last := options[|options| - 1];
      assert options == options[..|options| - 1] + [last];
      Available(options[..|options| - 1], compoundingFrequency) + (if last.minFreq <= compoundingFrequency then [last] else [])
  }

  /** Filtering keeps the finest-first order. */
  lemma {:induction false} AvailableFinestFirst(options: seq<ViewOption>, compoundingFrequency: int)
    requires FinestFirst(options)
    ensures FinestFirst(Available(options, compoundingFrequency))
  {
    if options != [] {
      var n := |options| - 1;
      var front, last := options[..n], options[n];
      assert FinestFirst(front) by {
        forall i, j | 0 <= i < j < n ensures front[i].minFreq > front[j].minFreq {
          assert front[i] == options[i] && front[j] == options[j];
        }
      }
      AvailableFinestFirst(front, compoundingFrequency);
      var rf := Available(front, compoundingFrequency);
      if last.minFreq <= compoundingFrequency {
        forall o | o in rf ensures o.minFreq > last.minFreq {
          var i :| 0 <= i < n && front[i] == o;
          assert options[i] == o;
        }
        AppendCoarser(rf, last);
      }
    }
  }

  /** Appending an option coarser than all listed keeps the order. */
  lemma AppendCoarser(options: seq<ViewOption>, last: ViewOption)
    requires FinestFirst(options) && forall o :: o in options ==> o.minFreq > last.minFreq
    ensures FinestFirst(options + [last])
  {
    var s := options + [last];
    forall i, j | 0 <= i < j < |s| ensures s[i].minFreq > s[j].minFreq {
      assert s[i] == options[i];
      if j == |options| {
        assert options[i] in options;
      } else {
        assert s[j] == options[j];
      }
    }
  }

  /** Whether an option with this value is offered. */
  predicate Offers(options: seq<ViewOption>, value: string)
  {
    exists o :: o in options && o.value == value
  }

  /** The granularity that suits a span of totalDays days. */
  function DefaultView(totalDays: real): (v: string)
    ensures Offers(AllOptions, v)
  {
    if totalDays <= 30.0 then "daily"
    else if totalDays <= 90.0 then "weekly"
    else if totalDays <= 365.0 then "monthly"
    else "annually"
  }

  /** Annual views are allowed under every compounding frequency, so something is always offered. */
  lemma AnnuallyAlwaysOffered(compoundingFrequency: PosInt)
    ensures AllOptions[4] in Available(AllOptions, compoundingFrequency)
    ensures Available(AllOptions, compoundingFrequency) != []
  {
    assert AllOptions[4] in AllOptions;
  }

  /**
   * The view selected first from the options offered: the span's default
   * when it is offered, otherwise the first (finest) option offered.
   */
  function ChooseFrom(offered: seq<ViewOption>, defaultView: string): (v: string)
    requires offered != [] && FinestFirst(offered)
    ensures exists o :: o in offered && o.value == v
    ensures v == defaultView <==> Offers(offered, defaultView)
    ensures !Offers(offered, defaultView) ==>
      v == offered[0].value && forall o :: o in offered ==> o.minFreq <= offered[0].minFreq
  {
    if Offers(offered, defaultView) then defaultView
    else
      assert offered[0] in offered;
      assert forall o :: o in offered ==> o.minFreq <= offered[0].minFreq by {
        forall o | o in offered ensures o.minFreq <= offered[0].minFreq {
          var j :| 0 <= j < |offered| && offered[j] == o;
        }
      }
      offered[0].value
  }

  /** The view selected first for a compounding frequency and a span in years. */
  function ChooseView(compoundingFrequency: PosInt, timeInYears: real): (v: string)
    ensures exists o :: o in AllOptions && o.value == v && o.minFreq <= compoundingFrequency
  {
    var offered := Available(AllOptions, compoundingFrequency);
    AnnuallyAlwaysOffered(compoundingFrequency);
    AllOptionsFinestFirst();
    AvailableFinestFirst(AllOptions, compoundingFrequency);
    ChooseFrom(offered, DefaultView(timeInYears * 365.0))
  }

  /**
   * Monthly compounding over two months: the weekly default is finer than
   * the compounding, so the table opens on the monthly view.
   */
  lemma MonthlyCompoundingOverTwoMonths()
    ensures ChooseView(12, 60.0 / 365.0) == "monthly"
  {
    var o := AllOptions;
    var offered := [o[2], o[3], o[4]];
    assert Available(o, 12) == offered by { MonthlyCompoundingOffers(); }
    assert DefaultView((60.0 / 365.0) * 365.0) == "weekly";
    assert !Offers(offered, "weekly") by {
      assert o[2].value == "monthly" && o[3].value == "quarterly" && o[4].value == "annually";
    }
  }

  /** Monthly compounding offers the monthly, quarterly and annual views. */
  lemma MonthlyCompoundingOffers()
    ensures Available(AllOptions, 12) == [AllOptions[2], AllOptions[3], AllOptions[4]]
  {
    var o := AllOptions;
    assert Available(o[..1], 12) == [] by { assert o[..1][..0] == []; }
    assert Available(o[..2], 12) == [] by { assert o[..2][..1] == o[..1]; }
    assert Available(o[..3], 12) == [o[2]] by { assert o[..3][..2] == o[..2]; }
    assert Available(o[..4], 12) == [o[2], o[3]] by { assert o[..4][..3] == o[..3]; }
    assert o[..4] == o[..|o| - 1];
  }

  /** The breakdown table's select element: its options and its selected value. */
  class BreakdownViewSelect {
    var options: seq<ViewOption>
    var value: string

    constructor ()
      ensures options == [] && value == ""
    {
      options := [];
      value := "";
    }

    /** setupBreakdownViewOptions: clear, append each allowed option in order, select the chosen view. */
    method Setup(compoundingFrequency: PosInt, timeInYears: real)
      modifies this
      ensures options == Available(AllOptions, compoundingFrequency)
      ensures value == ChooseView(compoundingFrequency, timeInYears)
      ensures exists o :: o in options && o.value == value
    {
      options := [];
      var i := 0;
      while i < |AllOptions|
        invariant 0 <= i <= |AllOptions|
        invariant options == Available(AllOptions[..i], compoundingFrequency)
      {
        var option := AllOptions[i];
        assert AllOptions[..i + 1][..i] == AllOptions[..i];
        if option.minFreq <= compoundingFrequency {
          options := options + [option];
        }
        i := i + 1;
      }
      assert AllOptions[..i] == AllOptions;
      value := ChooseView(compoundingFrequency, timeInYears);
    }
  }
}
