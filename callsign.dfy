/** The callsign normalisation rule: the base callsign is the part of a
    callsign before its first delimiter. */
module Callsign {
  import opened Text

  /** The delimiters searched for: space, slash and full stop. */
  predicate IsDelimiter(c: char) {
    c == ' ' || c == '/' || c == '.'
  }

  /** A base must have at least this many characters before a delimiter. */
  const MinBaseLength: nat := 3

  /** The index of the first delimiter in `s`; `None` stands for
      `std::string::npos`, which is larger than every index. */
  function FirstDelimiter(s: string): (r: Option<nat>)
    ensures r.None? ==> forall i :: 0 <= i < |s| ==> !IsDelimiter(s[i])
    ensures r.Some? ==> r.value < |s| && IsDelimiter(s[r.value])
    ensures r.Some? ==> forall i :: 0 <= i < r.value ==> !IsDelimiter(s[i])
  {
    if |s| == 0 then None
    else if IsDelimiter(s[0]) then Some(0)
    else match FirstDelimiter(s[1..])
      case None => None
      case Some(p) => Some(p + 1)
  }

  /** The base of a callsign, or `None` when it is rejected. When there is
      no delimiter the `npos < 3` guard does not fire and the substring up
      to `npos` is the whole callsign. */
  function Base(call: string): (r: Option<string>)
    ensures r.Some? ==> r.value <= call && (|r.value| == |call| || IsDelimiter(call[|r.value|]))
  {
    match FirstDelimiter(call)
    case None => Some(call)
    case Some(pos) => if pos < MinBaseLength then None else Some(call[..pos])
  }

  /** True iff the first of ' ', '/', '.' in `call` is at index 0, 1 or 2. */
  ghost predicate Rejected(call: string) {
    exists i :: 0 <= i < |call| && i < MinBaseLength && IsDelimiter(call[i])
  }

  /** What the base is: a callsign is rejected exactly when a delimiter
      occurs at index 0, 1 or 2; otherwise its base is the longest
      delimiter-free prefix, which is the whole callsign when it has no
      delimiter and has at least three characters otherwise. */
  lemma BaseSpec(call: string)
    ensures Base(call).None? <==> Rejected(call)
    ensures Base(call).Some? ==> var b := Base(call).value;
      && |b| <= |call| && b == call[..|b|]
      && (forall i :: 0 <= i < |b| ==> !IsDelimiter(call[i]))
      && (|b| == |call| || IsDelimiter(call[|b|]))
      && (|b| >= MinBaseLength || b == call)
    ensures (forall i :: 0 <= i < |call| ==> !IsDelimiter(call[i])) ==> Base(call) == Some(call)
  {
  }
}
