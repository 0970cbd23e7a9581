/** Nullable values and the two walks over sequences of them that the visitors perform. */
module Optional {

  /** A value that Go would represent by a possibly-nil pointer or interface. */
  datatype Option<+T> = None | Some(value: T)

  /** The index of the first `None` in `s`, or `|s|` when every element is present. */
  function FirstNone<T>(s: seq<Option<T>>): (k: nat)
    ensures k <= |s|
    ensures forall i :: 0 <= i < k ==> s[i].Some?
    ensures k < |s| ==> s[k].None?
  {
    if |s| == 0 || s[0].None? then 0 else 1 + FirstNone(s[1..])
  }

  /** The present elements of `s`, in order. */
  function Somes<T>(s: seq<Option<T>>): (r: seq<T>)
    ensures |r| <= |s|
    ensures forall x :: x in r ==> Some(x) in s
    ensures forall i :: 0 <= i < |s| && s[i].Some? ==> s[i].value in r
  {
    if |s| == 0 then []
    else if s[0].None? then Somes(s[1..])
    else [s[0].value] + Somes(s[1..])
  }

  /** The values of the elements before the first `None`. */
  function UntilNone<T>(s: seq<Option<T>>): (r: seq<T>)
    ensures |r| == FirstNone(s)
    ensures forall i :: 0 <= i < |r| ==> s[i] == Some(r[i])
  {
    if |s| == 0 || s[0].None? then [] else [s[0].value] + UntilNone(s[1..])
  }

  /** `i` is the first-None index when everything before it is present and it is absent or the end. */
  lemma FirstNoneAt<T>(s: seq<Option<T>>, i: nat)
    requires i <= |s|
    requires forall j :: 0 <= j < i ==> s[j].Some?
    requires i < |s| ==> s[i].None?
    ensures FirstNone(s) == i
  {
  }
}
