/**
 Scalar values as the staff-sync program sees them: cells of the personnel
 export and scalars of the directory's JSON replies, with the few Python
 operations the program applies to them.
 */
module Values {

  /** A Python scalar the program compares, converts or sends: `None`, a
      string, or an integer (a numeric spreadsheet cell or a JSON number). */
  datatype Value = Null | Text(s: string) | Int(i: int)

  /** The decimal digits of `n`, most significant first. */
  function Digits(n: nat): (r: string)
    ensures |r| > 0
    ensures forall k :: 0 <= k < |r| ==> '0' <= r[k] <= '9'
    decreases n
  {
    var last := [('0' as int + n % 10) as char];
    if n < 10 then last else Digits(n / 10) + last
  }

  /** Python's `str()`: `None` prints as "None", an integer in decimal with a
      leading '-' when negative; only the empty string prints as "". */
  function Str(v: Value): (r: string)
    ensures r == "" <==> v == Text("")
    ensures v.Text? ==> r == v.s
  {
    match v
    case Null => "None"
    case Text(s) => s
    case Int(i) => if i < 0 then "-" + Digits(-i) else Digits(i)
  }

  /** The blank rule the program applies to cells and fields: `None` is read
      as the empty string, every other value is kept. */
  function OrEmpty(v: Value): (r: Value)
    ensures r != Null
    ensures v != Null ==> Str(r) == Str(v)
    ensures Str(r) == "" <==> v == Null || v == Text("")
  {
    if v == Null then Text("") else v
  }

  /** The status code: the first three characters of a status envelope
      such as "200 - OK" (all of it when it is shorter). */
  function StatusCode(status: string): (r: string)
    ensures r <= status
    ensures |r| == if |status| < 3 then |status| else 3
  {
    if |status| <= 3 then status else status[..3]
  }

  /** "200" is the only success the program recognises. */
  predicate IsOk(status: string)
  {
    StatusCode(status) == "200"
  }

  /** A reply counts as success exactly when its envelope starts with "200". */
  lemma OkIffStartsWith200(status: string)
    ensures IsOk(status) <==> |status| >= 3 && status[..3] == "200"
  {
  }
}
