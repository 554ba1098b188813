/**
 * The label functions handed to the dataset: each reads field 1 of a
 * manifest row. HSS labels are already integer codes; CinC labels are the
 * words "Normal" and "Abnormal".
 */
module Labels {
  import opened Results

  datatype LabelError =
    | IndexError          // the row has no field 1
    | KeyError(key: string) // the CinC word is outside the vocabulary

  /** `hss_label_func(row)`: field 1 of the row, unchanged. */
  function HssLabel<V>(row: seq<V>): (r: Result<V, LabelError>)
    ensures r.Ok? <==> |row| >= 2
    ensures r.Ok? ==> r.value == row[1]
    ensures r.Err? ==> r.error == IndexError
  {
    if |row| >= 2 then Ok(row[1]) else Err(IndexError)
  }

  /** The CinC vocabulary, `{'Normal': 0, 'Abnormal': 1}`. */
  const NORMAL := "Normal"
  const ABNORMAL := "Abnormal"

  /** `cinc_label_func(row)`: field 1 looked up in the vocabulary. */
  function CincLabel(row: seq<string>): (r: Result<int, LabelError>)
    ensures r.Ok? <==> |row| >= 2 && (row[1] == NORMAL || row[1] == ABNORMAL)
    ensures r == Ok(0) <==> |row| >= 2 && row[1] == NORMAL
    ensures r == Ok(1) <==> |row| >= 2 && row[1] == ABNORMAL
    ensures |row| < 2 ==> r == Err(IndexError)
    ensures |row| >= 2 && r.Err? ==> r.error == KeyError(row[1])
  {
    if |row| < 2 then Err(IndexError)
    else if row[1] == NORMAL then Ok(0)
    else if row[1] == ABNORMAL then Ok(1)
    else Err(KeyError(row[1]))
  }

  /** The word for a CinC class index: the inverse of the vocabulary. */
  function CincClassName(k: int): (r: Option<string>)
    ensures r.Some? <==> k == 0 || k == 1
  {
    if k == 0 then Some(NORMAL) else if k == 1 then Some(ABNORMAL) else None
  }

  /** The vocabulary is a bijection between its two words and the classes 0 and 1. */
  lemma CincLabelRoundTrip(row: seq<string>, k: int)
    ensures CincLabel(row).Ok? ==> CincClassName(CincLabel(row).value) == Some(row[1])
    ensures |row| >= 2 && CincClassName(k) == Some(row[1]) ==> CincLabel(row) == Ok(k)
  {
  }
}
