/** The ChampSim JSON configuration as the runner edits it: a tree of
    objects (insertion-ordered dictionaries), arrays and scalars, read and
    written through subscript paths such as `config['ooo_cpu'][0]['branch_predictor']`. */
module JsonConfig {
  import opened Wrappers
  import opened OrderedDict

  datatype Json =
    | JNull
    | JBool(b: bool)
    | JNum(n: int)
    | JStr(s: string)
    | JArr(items: seq<Json>)
    | JObj(fields: Dict<string, Json>)

  /** One subscript: a key of an object or an index of an array. */
  datatype Step = Field(name: string) | At(index: nat)

  type Path = seq<Step>

  /** Python's `None` becomes JSON `null`, a name becomes a string. */
  function JsonName(o: Option<string>): (r: Json)
    ensures o.None? <==> r == JNull
    ensures o.Some? ==> r == JStr(o.value)
  {
    match o
    case None => JNull
    case Some(v) => JStr(v)
  }

  /** `j[p0][p1]...`: `None` where Python raises `KeyError`, `IndexError`
      or `TypeError`. */
  function GetPath(j: Json, p: Path): (r: Option<Json>)
    ensures |p| == 0 ==> r == Some(j)
    decreases |p|
  {
    if |p| == 0 then Some(j)
    else
      match Step1(j, p[0])
      case None => None
      case Some(c) => GetPath(c, p[1..])
  }

  /** One subscript read. */
  function Step1(j: Json, s: Step): (r: Option<Json>)
  {
    match s
    case Field(k) => if j.JObj? then Get(j.fields, k) else None
    case At(i) => if j.JArr? && i < |j.items| then Some(j.items[i]) else None
  }

  /** `j[p0]...[pn] = v`: every subscript but the last must exist; the last
      key of an object is created when absent, the last index of an array
      must already exist.  `None` where Python raises. */
  function SetPath(j: Json, p: Path, v: Json): (r: Option<Json>)
    requires |p| > 0
    decreases |p|
  {
    var s := p[0];
    var inner: Option<Json> :=
      if |p| == 1 then Some(v)
      else match Step1(j, s)
        case None => None
        case Some(c) => SetPath(c, p[1..], v);
    match inner
    case None => None
    case Some(c) =>
      match s
      case Field(k) => if j.JObj? then Some(JObj(Put(j.fields, k, c))) else None
      case At(i) => if j.JArr? && i < |j.items| then Some(JArr(j.items[i := c])) else None
  }

  /** Two paths part ways: they differ at some position both have. */
  predicate Diverge(p: Path, q: Path)
  {
    exists i :: 0 <= i < |p| && i < |q| && p[i] != q[i]
  }

  lemma DivergeAt(p: Path, q: Path, d: nat)
    requires d < |p| && d < |q| && p[d] != q[d]
    ensures Diverge(p, q)
  {
  }

  /** The assignment succeeds exactly when every subscript before the last
      exists and the last one fits its container. */
  lemma {:induction false} SetPathDefined(j: Json, p: Path, v: Json)
    requires |p| > 0
    ensures SetPath(j, p, v).Some? <==> GetPath(j, p[..|p| - 1]).Some? && Fits(GetPath(j, p[..|p| - 1]).value, p[|p| - 1])
    decreases |p|
  {
    if |p| > 1 {
      assert p[1..][..|p[1..]| - 1] == p[..|p| - 1][1..];
      match Step1(j, p[0])
      case None =>
      case Some(c) =>
        SetPathDefined(c, p[1..], v);
        var init := p[..|p| - 1];
        assert p[1..][|p[1..]| - 1] == p[|p| - 1];
        assert GetPath(j, init) == GetPath(c, init[1..]);
    }
  }

  /** The last subscript of an assignment can be written into `j`. */
  predicate Fits(j: Json, s: Step)
  {
    match s
    case Field(_) => j.JObj?
    case At(i) => j.JArr? && i < |j.items|
  }

  /** Reading the assigned path gives the assigned value. */
  lemma {:induction false} SetThenGet(j: Json, p: Path, v: Json)
    requires |p| > 0 && SetPath(j, p, v).Some?
    ensures GetPath(SetPath(j, p, v).value, p) == Some(v)
    decreases |p|
  {
    var r := SetPath(j, p, v).value;
    var c := if |p| == 1 then v else SetPath(Step1(j, p[0]).value, p[1..], v).value;
    match p[0]
    case Field(k) =>
      GetPutSame(j.fields, k, c);
      assert Step1(r, p[0]) == Some(c);
      if |p| > 1 {
        SetThenGet(Step1(j, p[0]).value, p[1..], v);
      }
    case At(i) =>
      assert Step1(r, p[0]) == Some(c);
      if |p| > 1 {
        SetThenGet(Step1(j, p[0]).value, p[1..], v);
      }
  }

  /** Every path that parts ways with the assigned one reads as before:
      an assignment writes only its own key. */
  lemma {:induction false} SetKeepsOthers(j: Json, p: Path, v: Json, q: Path)
    requires |p| > 0 && SetPath(j, p, v).Some?
    requires Diverge(p, q)
    ensures GetPath(SetPath(j, p, v).value, q) == GetPath(j, q)
    decreases |p|
  {
    var r := SetPath(j, p, v).value;
    var c := if |p| == 1 then v else SetPath(Step1(j, p[0]).value, p[1..], v).value;
    if p[0] != q[0] {
      match p[0] {
        case Field(k) =>
          if q[0].Field? {
            assert Step1(r, q[0]) == Step1(j, q[0]);
          }
        case At(i) =>
          if q[0].At? {
            assert Step1(r, q[0]) == Step1(j, q[0]);
          }
      }
    } else {
      var d :| 0 <= d < |p| && d < |q| && p[d] != q[d];
      assert d > 0;
      assert |p| > 1;
      assert p[1..][d - 1] != q[1..][d - 1];
      SetKeepsOthers(Step1(j, p[0]).value, p[1..], v, q[1..]);
      match p[0]
      case Field(k) =>
        GetPutSame(j.fields, k, c);
        assert Step1(r, q[0]) == Some(c);
      case At(i) =>
        assert Step1(r, q[0]) == Some(c);
    }
  }
}
