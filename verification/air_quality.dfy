/** The AQI category lookup of air_quality.py: the table of US AQI bands and
    `get_aqi_category`. The reading is an integer here; fetching it over the
    network and printing the report are not part of this model. */
module AirQuality {

  /** One band: the highest AQI it covers, its label and its health advice. */
  datatype Category = Category(threshold: int, name: string, description: string)

  /** `AQI_CATEGORIES`, in increasing order of threshold. */
  const AqiCategories: seq<Category> := [
    Category(50, "Good", "Air quality is satisfactory with little or no risk."),
    Category(100, "Moderate", "Acceptable; moderate health concern for sensitive individuals."),
    Category(150, "Unhealthy for Sensitive Groups", "Sensitive groups may experience health effects."),
    Category(200, "Unhealthy", "Everyone may begin to experience health effects."),
    Category(300, "Very Unhealthy", "Health alert: everyone may experience serious effects."),
    Category(500, "Hazardous", "Health emergency: the entire population is affected.")
  ]

  /** The pair returned when the reading is above every threshold. */
  const FallbackLabel: string := "Hazardous"
  const FallbackDescription: string := "Health emergency: the entire population is affected."

  /** How many of the first `n` thresholds lie strictly below `aqi`. */
  function CountBelow(aqi: int, n: nat): (c: nat)
    requires n <= |AqiCategories|
    ensures c <= n
  {
    if n == 0 then 0
    else CountBelow(aqi, n - 1) + (if AqiCategories[n - 1].threshold < aqi then 1 else 0)
  }

  /** The band of a reading: the number of thresholds it exceeds, with readings
      above the last threshold kept in the last band. */
  function Band(aqi: int): (i: nat)
    ensures i < |AqiCategories|
  {
    var c := CountBelow(aqi, |AqiCategories|);
    if c < |AqiCategories| then c else |AqiCategories| - 1
  }

  /** The row a reading falls in: the first row whose threshold is at least the
      reading, or the last row when there is none. */
  function CategoryOf(aqi: int): (c: Category)
    ensures c in AqiCategories
    ensures aqi <= c.threshold || c == AqiCategories[|AqiCategories| - 1]
    ensures forall k :: 0 <= k < |AqiCategories| && AqiCategories[k].threshold < c.threshold ==>
      AqiCategories[k].threshold < aqi
  {
    BandIff(aqi, Band(aqi));
    ThresholdsIncrease();
    AqiCategories[Band(aqi)]
  }

  /** The thresholds strictly increase. */
  lemma ThresholdsIncrease()
    ensures forall i, j :: 0 <= i < j < |AqiCategories| ==> AqiCategories[i].threshold < AqiCategories[j].threshold
  {
  }

  /** When exactly the first `i` of the first `n` thresholds lie below `aqi`, the
      count is `i`. */
  lemma {:induction false} CountBelowSplit(aqi: int, i: nat, n: nat)
    requires i <= n <= |AqiCategories|
    requires forall k :: 0 <= k < i ==> AqiCategories[k].threshold < aqi
    requires forall k :: i <= k < n ==> aqi <= AqiCategories[k].threshold
    ensures CountBelow(aqi, n) == i
  {
    if n > i {
      CountBelowSplit(aqi, i, n - 1);
    } else if n > 0 {
      CountBelowSplit(aqi, n - 1, n - 1);
    }
  }

  /** A reading is in band `i` exactly when it exceeds the previous threshold (if
      any) and does not exceed its own (except in the last band, which has no upper
      end): the bands partition the integers and both ends of a band are inclusive
      as `aqi <= threshold` makes them. */
  lemma BandIff(aqi: int, i: nat)
    requires i < |AqiCategories|
    ensures Band(aqi) == i <==>
      && (i == 0 || AqiCategories[i - 1].threshold < aqi)
      && (i == |AqiCategories| - 1 || aqi <= AqiCategories[i].threshold)
  {
    ThresholdsIncrease();
    var b := FirstAtLeast(aqi, 0);
    CountBelowSplit(aqi, b, |AqiCategories|);
  }

  /** The index of the first threshold from `i` on that is at least `aqi`, or the
      table's length. */
  function FirstAtLeast(aqi: int, i: nat): (b: nat)
    requires i <= |AqiCategories|
    ensures i <= b <= |AqiCategories|
    ensures forall k :: i <= k < b ==> AqiCategories[k].threshold < aqi
    ensures b < |AqiCategories| ==> aqi <= AqiCategories[b].threshold
    decreases |AqiCategories| - i
  {
    if i == |AqiCategories| || aqi <= AqiCategories[i].threshold then i
    else FirstAtLeast(aqi, i + 1)
  }

  /** `get_aqi_category(aqi)`: the label and description of the first row whose
      threshold is at least `aqi`, or the "Hazardous" pair when there is none. */
  method GetAqiCategory(aqi: int) returns (name: string, description: string)
    ensures name == CategoryOf(aqi).name && description == CategoryOf(aqi).description
  {
    ThresholdsIncrease();
    var i := 0;
    while i < |AqiCategories|
      invariant i <= |AqiCategories|
      invariant forall k :: 0 <= k < i ==> AqiCategories[k].threshold < aqi
    {
      var c := AqiCategories[i];
      if aqi <= c.threshold {
        CountBelowSplit(aqi, i, |AqiCategories|);
        return c.name, c.description;
      }
      i := i + 1;
    }
    CountBelowSplit(aqi, i, |AqiCategories|);
    return FallbackLabel, FallbackDescription;
  }

  /** Every reading up to 50, negative ones included, is "Good". */
  lemma GoodUpTo50(aqi: int)
    requires aqi <= 50
    ensures CategoryOf(aqi).name == "Good"
  {
    BandIff(aqi, 0);
  }

  /** Every reading above 300, however large, is "Hazardous", the same pair as the
      fallback. */
  lemma HazardousAbove300(aqi: int)
    requires aqi > 300
    ensures CategoryOf(aqi).name == FallbackLabel && CategoryOf(aqi).description == FallbackDescription
  {
    BandIff(aqi, 5);
  }

  /** Thresholds belong to the band they close: 100 is "Moderate", 101 is
      "Unhealthy for Sensitive Groups", 300 is "Very Unhealthy", 301 is "Hazardous". */
  lemma InclusiveBoundaries()
    ensures CategoryOf(100).name == "Moderate"
    ensures CategoryOf(101).name == "Unhealthy for Sensitive Groups"
    ensures CategoryOf(300).name == "Very Unhealthy"
    ensures CategoryOf(301).name == "Hazardous"
  {
    BandIff(100, 1);
    BandIff(101, 2);
    BandIff(300, 4);
    BandIff(301, 5);
  }

  /** A higher reading never falls in a lower band. */
  lemma BandMonotone(a: int, b: int)
    requires a <= b
    ensures Band(a) <= Band(b)
  {
    BandIff(a, Band(a));
    BandIff(b, Band(b));
    ThresholdsIncrease();
  }

  /** No two rows share a label, so the label identifies the band. */
  lemma LabelsDistinct()
    ensures forall i, j :: 0 <= i < j < |AqiCategories| ==> AqiCategories[i].name != AqiCategories[j].name
  {
  }
}
