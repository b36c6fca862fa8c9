/** A three-letter airport code such as "WAW", stored in upper case. */
module AirportCodes {
  import opened Common

  datatype CodeText = CodeText(value: string)

  predicate ValidText(s: string)
  {
    |s| == 3 && forall i :: 0 <= i < |s| ==> IsUpper(s[i])
  }

  /** Once constructed, a code is three upper-case letters. Equality is that of the
      stored (normalised) text. */
  type AirportCode = c: CodeText | ValidText(c.value) witness CodeText("AAA")

  /** What construction from `code` yields: nothing unless `code` has length 3 and
      consists of letters; otherwise the code with every letter in upper case. */
  ghost predicate Constructs(code: string, r: Option<AirportCode>)
  {
    if |code| == 3 && forall i :: 0 <= i < |code| ==> IsLetter(code[i]) then
      r.Some? && |r.value.value| == 3 && forall i :: 0 <= i < 3 ==> r.value.value[i] == ToUpper(code[i])
    else
      r.None?
  }

  /** The validating constructor. The text is copied and then rewritten in place,
      one character at a time, stopping at the first character that is not a letter. */
  method NewAirportCode(code: string) returns (r: Option<AirportCode>)
    ensures Constructs(code, r)
  {
    if |code| != 3 {
      return None;
    }
    var buf := new char[3](i requires 0 <= i < 3 => code[i]);
    var i := 0;
    while i < 3
      invariant 0 <= i <= 3
      invariant forall j :: 0 <= j < i ==> IsLetter(code[j]) && buf[j] == ToUpper(code[j])
      invariant forall j :: i <= j < 3 ==> buf[j] == code[j]
    {
      if IsLower(buf[i]) {
        buf[i] := ToUpper(buf[i]);
      }
      if !IsUpper(buf[i]) {
        return None;
      }
      i := i + 1;
    }
    r := Some(CodeText(buf[..]));
  }

  /** Construction has a single possible outcome for each input. */
  lemma ConstructsIsDeterministic(code: string, r1: Option<AirportCode>, r2: Option<AirportCode>)
    requires Constructs(code, r1) && Constructs(code, r2)
    ensures r1 == r2
  {
    if r1.Some? {
      assert r1.value.value == r2.value.value;
    }
  }

  /** Normalisation is idempotent: constructing from `value()` gives back the same code. */
  lemma ReconstructIsIdentity(c: AirportCode, r: Option<AirportCode>)
    requires Constructs(c.value, r)
    ensures r == Some(c)
  {
    assert forall i :: 0 <= i < 3 ==> IsLetter(c.value[i]);
    assert r.value.value == c.value;
  }

  /** Codes that differ only in letter case construct equal values. */
  lemma CaseInsensitive(a: string, b: string, ra: Option<AirportCode>, rb: Option<AirportCode>)
    requires |a| == |b| && forall i :: 0 <= i < |a| ==> ToUpper(a[i]) == ToUpper(b[i])
    requires Constructs(a, ra) && Constructs(b, rb)
    ensures ra == rb
  {
    if |a| == 3 && forall i :: 0 <= i < 3 ==> IsLetter(a[i]) {
      assert forall i :: 0 <= i < 3 ==> IsLetter(b[i]);
      assert ra.value.value == rb.value.value;
    } else if |a| == 3 {
      var k :| 0 <= k < 3 && !IsLetter(a[k]);
      assert !IsLetter(b[k]);
    }
  }

  /** "waw" becomes "WAW"; "WA" and "W4W" are refused. */
  lemma Examples(r1: Option<AirportCode>, r2: Option<AirportCode>, r3: Option<AirportCode>)
    requires Constructs("waw", r1) && Constructs("WA", r2) && Constructs("W4W", r3)
    ensures r1 == Some(CodeText("WAW"))
    ensures r2 == None && r3 == None
  {
    assert r1.value.value == "WAW";
    assert !IsLetter("W4W"[1]);
  }
}
