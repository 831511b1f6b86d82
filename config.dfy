/** The constants of the activity log and the fallback data directory (config.py). */
module Config {
  import opened Text
  import opened PyNum
  import opened Output

  const Employees: seq<string> := ["Anna", "Benedikt", "Carla", "Dieter", "Elena"]

  const Activities: seq<string> := ["freie", "Aufmaß", "Absteckung", "Absteckdaten", "Bestandsplan", "Sonstiges"]

  /** `[round(i / 10, 1) for i in range(1, 11)]`. */
  function TimeShares(): seq<real>
  {
    seq(10, i requires 0 <= i < 10 => RoundDigits((i + 1) as real / 10.0, 1))
  }

  const DataDirName: string := "TBC"
  const DbFileName: string := "activity_log.db"
  const ExportFileName: string := "activity_log_export.csv"

  /** A whole number of tenths is left alone by `round(x, 1)`. */
  lemma RoundDigitsTenths(k: int)
    ensures RoundDigits(k as real / 10.0, 1) == k as real / 10.0
  {
    assert Pow10(1) == 10;
    assert (k as real / 10.0) * 10.0 == k as real;
    RoundHalfEvenUnique(k as real, k);
  }

  /** The allowed time shares are exactly the ten tenths 0.1, 0.2, ..., 1.0:
      each lies in (0, 1] and the list strictly increases. */
  lemma TimeSharesTenths()
    ensures TimeShares() == [0.1, 0.2, 0.3, 0.4, 0.5, 0.6, 0.7, 0.8, 0.9, 1.0]
    ensures forall i :: 0 <= i < |TimeShares()| ==> 0.0 < TimeShares()[i] <= 1.0
    ensures forall i, j :: 0 <= i < j < |TimeShares()| ==> TimeShares()[i] < TimeShares()[j]
  {
    forall i | 0 <= i < 10 ensures TimeShares()[i] == (i + 1) as real / 10.0 {
      RoundDigitsTenths(i + 1);
    }
  }

  /** `Path.home() / DATA_DIR_NAME`. */
  function FallbackHomeDir(home: Path): (r: Path)
    ensures r == Child(home, "TBC")
  {
    Child(home, DataDirName)
  }
}
