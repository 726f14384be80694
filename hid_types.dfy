// Types shared by every backend of the HID API: bytes, 16-bit identifiers,
// input reports, and the optional values that C expresses with NULL.
module HidTypes {

  /** An unsigned char / uint8_t. */
  type byte = x: int | 0 <= x < 0x100

  /** An `unsigned short`, such as a vendor or product ID. */
  type u16 = x: int | 0 <= x < 0x1_0000

  /** One input report exactly as the OS delivered it: its bytes and, through
      `|r|`, its length. */
  type Report = seq<byte>

  /** A pointer that may be NULL. */
  datatype Option<+T> = None | Some(value: T)

  function Min(a: nat, b: nat): nat
  {
    if a < b then a else b
  }

  /** The index of the first element of `s` that satisfies `p`, or `|s|` when
      none does: the position at which a C loop that scans `s` from the front
      and breaks on `p` stops. */
  function FirstIndex<T>(s: seq<T>, p: T -> bool): (k: nat)
    ensures k <= |s|
    ensures forall j :: 0 <= j < k ==> !p(s[j])
    ensures k < |s| ==> p(s[k])
  {
    if s == [] then 0
    else if p(s[0]) then 0
    else 1 + FirstIndex(s[1..], p)
  }

  /** Any position with the three properties of FirstIndex is FirstIndex. */
  lemma FirstIndexUnique<T>(s: seq<T>, p: T -> bool, k: nat)
    requires k <= |s|
    requires forall j :: 0 <= j < k ==> !p(s[j])
    requires k < |s| ==> p(s[k])
    ensures k == FirstIndex(s, p)
  {
  }

  /** How FirstIndex moves as a scan extends its prefix by one element. */
  lemma FirstIndexExtend<T>(s: seq<T>, p: T -> bool, i: nat)
    requires i < |s|
    ensures var f := FirstIndex(s[..i], p);
      FirstIndex(s[..i + 1], p) == if f < i then f else if p(s[i]) then i else i + 1
  {
    var f := FirstIndex(s[..i], p);
    var t := s[..i + 1];
    assert forall j :: 0 <= j < i ==> t[j] == s[..i][j];
    var g := if f < i then f else if p(s[i]) then i else i + 1;
    FirstIndexUnique(t, p, g);
  }

  /** The values present in `s`, in order: what a C loop that skips NULL
      results and appends the others to a list produces. */
  function Present<T>(s: seq<Option<T>>): (r: seq<T>)
    ensures |r| <= |s|
  {
    if s == [] then []
    else (if s[0].Some? then [s[0].value] else []) + Present(s[1..])
  }

  /** A value is present exactly when some element holds it. */
  lemma {:induction false} PresentMembers<T>(s: seq<Option<T>>, x: T)
    ensures x in Present(s) <==> exists i :: 0 <= i < |s| && s[i] == Some(x)
    decreases |s|
  {
    if s != [] {
      PresentMembers(s[1..], x);
      assert forall i :: 1 <= i < |s| ==> s[i] == s[1..][i - 1];
    }
  }

  /** Present distributes over concatenation, keeping the order. */
  lemma {:induction false} PresentAppend<T>(a: seq<Option<T>>, b: seq<Option<T>>)
    ensures Present(a + b) == Present(a) + Present(b)
    decreases |a|
  {
    if a == [] {
      assert a + b == b;
    } else {
      PresentAppend(a[1..], b);
      assert (a + b)[1..] == a[1..] + b;
      assert (a + b)[0] == a[0];
    }
  }
}
