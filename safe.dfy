/**
 * The input helpers of backend/utils/safe.js: integer coercion, string
 * trimming and truncation, id-list filtering and SQL placeholder lists.
 */
module Safe {
  import opened Wrappers
  import opened JsValues
  import opened Seqs

  /** `toInt`: the integer `v` stands for, or null. */
  function ToInt(v: JsValue): (r: Option<int>)
    ensures (v.Undefined? || v.Null?) ==> r == None
    ensures r.Some? <==> !(v.Undefined? || v.Null?) && IsInteger(ToNumber(v))
    ensures r.Some? ==> ToNumber(v) == Finite(r.value as real)
  {
    if v.Undefined? || v.Null? then None
    else
      var n := ToNumber(v);
      if IsInteger(n) then Some(n.value.Floor) else None
  }

  /** `toPositiveInt`: `toInt`, with 0 and the negatives mapped to null. */
  function ToPositiveInt(v: JsValue): (r: Option<int>)
    ensures r.Some? ==> r.value > 0 && r == ToInt(v)
    ensures ToInt(v).Some? && ToInt(v).value > 0 ==> r == ToInt(v)
    ensures ToInt(v).Some? && ToInt(v).value <= 0 ==> r == None
  {
    var n := ToInt(v);
    // `n && n > 0`: null and 0 are falsy
    if n.Some? && n.value != 0 && n.value > 0 then n else None
  }

  /** The characters `String.prototype.trim` removes: WhiteSpace and LineTerminator. */
  predicate IsJsSpace(c: char)
  {
    c == '\t' || c == '\n' || c == '\U{000B}' || c == '\U{000C}' || c == '\r' || c == ' '
    || c == '\U{00A0}' || c == '\U{1680}' || ('\U{2000}' <= c <= '\U{200A}')
    || c == '\U{2028}' || c == '\U{2029}' || c == '\U{202F}' || c == '\U{205F}'
    || c == '\U{3000}' || c == '\U{FEFF}'
  }

  /** `s` without its leading white space. */
  function TrimStart(s: string): (r: string)
    ensures |r| <= |s|
    ensures r == s[|s| - |r|..]
    ensures forall k :: 0 <= k < |s| - |r| ==> IsJsSpace(s[k])
    ensures r == [] || !IsJsSpace(r[0])
  {
    if |s| > 0 && IsJsSpace(s[0]) then TrimStart(s[1..]) else s
  }

  /** `s` without its trailing white space. */
  function TrimEnd(s: string): (r: string)
    ensures |r| <= |s|
    ensures r == s[..|r|]
    ensures forall k :: |r| <= k < |s| ==> IsJsSpace(s[k])
    ensures r == [] || !IsJsSpace(r[|r| - 1])
  {
    if |s| > 0 && IsJsSpace(s[|s| - 1]) then TrimEnd(s[..|s| - 1]) else s
  }

  /** `String.prototype.trim`. */
  function Trim(s: string): (r: string)
    ensures |r| <= |s|
    ensures (forall k :: 0 <= k < |s| ==> !IsJsSpace(s[k])) ==> r == s
  {
    TrimEnd(TrimStart(s))
  }

  /** What Trim keeps is the stretch of `s` that starts where TrimStart's result starts. */
  lemma {:induction false} TrimStretch(s: string)
    ensures var i := |s| - |TrimStart(s)|;
      i + |Trim(s)| <= |s| && Trim(s) == s[i..i + |Trim(s)|]
  {
    var t := TrimStart(s);
    var i := |s| - |t|;
    var r := TrimEnd(t);
    SliceOfSuffix(s, i, |r|);
  }

  /** What TrimEnd removes after that stretch is white space. */
  lemma {:induction false} TrimRemovesTail(s: string)
    ensures var i := |s| - |TrimStart(s)|;
      forall k :: i + |Trim(s)| <= k < |s| ==> IsJsSpace(s[k])
  {
    var t := TrimStart(s);
    var i := |s| - |t|;
    var r := TrimEnd(t);
    forall k | i + |r| <= k < |s|
      ensures IsJsSpace(s[k])
    {
      assert t == s[i..];
      assert s[k] == t[k - i];
    }
  }

  /**
   * Trim keeps one contiguous stretch `s[i..i + |Trim(s)|]` of `s`, everything
   * it removes is white space, and no white space is left at either end.
   */
  lemma {:induction false} TrimShape(s: string) returns (i: nat)
    ensures i + |Trim(s)| <= |s| && Trim(s) == s[i..i + |Trim(s)|]
    ensures forall k :: 0 <= k < i || i + |Trim(s)| <= k < |s| ==> IsJsSpace(s[k])
    ensures Trim(s) == [] || (!IsJsSpace(Trim(s)[0]) && !IsJsSpace(Trim(s)[|Trim(s)| - 1]))
  {
    var t := TrimStart(s);
    i := |s| - |t|;
    TrimStretch(s);
    TrimRemovesTail(s);
    var r := TrimEnd(t);
    if |r| > 0 {
      assert r[0] == t[0];
    }
  }

  /** Trimming twice is trimming once. */
  lemma {:induction false} TrimIdempotent(s: string)
    ensures Trim(Trim(s)) == Trim(s)
  {
    var t := Trim(s);
    var _ := TrimShape(s);
    if |t| > 0 {
      assert TrimStart(t) == t;
      assert TrimEnd(t) == t;
    }
  }

  /**
   * `sanitizeString(s, maxLen)`: `undefined`/`null` become "", anything else is
   * trimmed and cut to `maxLen` characters. `s` is the value's string form;
   * `String()` of non-strings is not modelled.
   */
  function SanitizeString(s: Option<string>, maxLen: nat): (r: string)
    ensures s.None? ==> r == ""
    ensures |r| <= maxLen
    ensures s.Some? ==> r <= Trim(s.value)
    ensures s.Some? && |Trim(s.value)| <= maxLen ==> r == Trim(s.value)
    ensures s.Some? && |Trim(s.value)| > maxLen ==> |r| == maxLen
  {
    match s
    case None => ""
    case Some(text) =>
      var str := Trim(text);
      if |str| > maxLen then str[..maxLen] else str
  }

  /** The element of an id list that `filterNumericIds` keeps: a positive integer. */
  function PositiveId(x: JsValue): (r: Option<int>)
    ensures r.Some? ==> r.value > 0 && ToNumber(x) == Finite(r.value as real)
    ensures IsInteger(ToNumber(x)) && ToNumber(x).value > 0.0 ==> r.Some?
  {
    var n := ToNumber(x);
    if IsInteger(n) && n.value > 0.0 then Some(n.value.Floor) else None
  }

  /** `arr.map(...).filter(Boolean)`, fused into one pass. */
  function NumericIds(elems: seq<JsValue>): (r: seq<int>)
    ensures |r| <= |elems|
    ensures forall k :: 0 <= k < |r| ==> r[k] > 0
  {
    if |elems| == 0 then []
    else
      match PositiveId(elems[0])
      case Some(n) => [n] + NumericIds(elems[1..])
      case None => NumericIds(elems[1..])
  }

  /** `filterNumericIds`: the positive integer ids of an array, [] for anything else. */
  function FilterNumericIds(v: JsValue): (r: seq<int>)
    ensures !v.Arr? ==> r == []
    ensures v.Arr? ==> |r| <= |v.elems|
    ensures forall k :: 0 <= k < |r| ==> r[k] > 0
  {
    if v.Arr? then NumericIds(v.elems) else []
  }

  /**
   * The kept ids keep the input's order: filtering a concatenation is the
   * concatenation of the filtered parts, and one element is kept exactly when
   * it is a positive integer. Together these determine FilterNumericIds.
   */
  lemma {:induction false} FilterNumericIdsOrder(a: seq<JsValue>, b: seq<JsValue>)
    ensures FilterNumericIds(Arr(a + b)) == FilterNumericIds(Arr(a)) + FilterNumericIds(Arr(b))
  {
    if |a| > 0 {
      assert (a + b)[1..] == a[1..] + b;
      FilterNumericIdsOrder(a[1..], b);
    } else {
      assert a + b == b;
    }
  }

  /** One element is kept exactly when it is a positive integer, as that integer. */
  lemma FilterNumericIdsSingle(x: JsValue)
    ensures FilterNumericIds(Arr([x])) == if PositiveId(x).Some? then [PositiveId(x).value] else []
  {
  }

  /** n question marks. */
  function Marks(n: nat): seq<string>
  {
    seq(n, _ => "?")
  }

  lemma {:induction false} JoinMarks(n: nat)
    requires n >= 1
    ensures |Join(Marks(n), ",")| == 2 * n - 1
    ensures forall i :: 0 <= i < 2 * n - 1 ==> Join(Marks(n), ",")[i] == if i % 2 == 0 then '?' else ','
  {
    if n > 1 {
      JoinMarks(n - 1);
      assert Marks(n)[1..] == Marks(n - 1);
      var rest := Join(Marks(n - 1), ",");
      assert Join(Marks(n), ",") == "?" + "," + rest;
    }
  }

  /** `placeholders`: "?,?,...,?" with one mark per array element, "" otherwise. */
  function Placeholders(v: JsValue): (r: string)
    ensures !v.Arr? || |v.elems| == 0 ==> r == ""
    ensures v.Arr? && |v.elems| > 0 ==> |r| == 2 * |v.elems| - 1
    ensures forall i :: 0 <= i < |r| ==> r[i] == if i % 2 == 0 then '?' else ','
  {
    if v.Arr? && |v.elems| > 0 then
      JoinMarks(|v.elems|);
      Join(Marks(|v.elems|), ",")
    else ""
  }

  /**
   * sanitizeString trims before it truncates, so a cut can end on a space:
   * "a b" cut to 2 characters is "a ".
   */
  lemma SanitizeMayEndInSpace()
    ensures SanitizeString(Some("a b"), 2) == "a "
    ensures IsJsSpace(SanitizeString(Some("a b"), 2)[1])
  {
    var s := "a b";
    assert |s| == 3 && s[0] == 'a' && s[2] == 'b';
    assert !IsJsSpace(s[0]) && !IsJsSpace(s[2]);
    assert TrimStart(s) == s;
    assert TrimEnd(s) == s;
    assert s[..2] == "a ";
  }
}
