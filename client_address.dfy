/** The caller's address as `CepController.getClientIpAddress` derives it from
    the proxy headers, with Java's `String.split(",")` and `String.trim()`
    written out. */
module ClientAddress {
  import opened Domain

  /** The parts of the servlet request the controller reads: two proxy
      headers, the `User-Agent` header (each null when absent) and the
      peer address. */
  datatype HttpRequest = HttpRequest(
    forwardedFor: Option<string>,
    realIp: Option<string>,
    userAgent: Option<string>,
    remoteAddr: string)

  /** A header that is non-null and non-empty. */
  predicate Present(h: Option<string>) {
    h.Some? && h.value != []
  }

  /** The pieces of `s` between commas, empty pieces included. The first
      piece is the longest comma-free prefix of `s`. */
  function Segments(s: string): (r: seq<string>)
    ensures |r| >= 1
    ensures forall k :: 0 <= k < |r| ==> ',' !in r[k]
    ensures |r[0]| <= |s| && r[0] == s[..|r[0]|]
    ensures |r[0]| < |s| ==> s[|r[0]|] == ','
  {
    if s == [] then [""]
    else
      var rest := Segments(s[1..]);
      if s[0] == ',' then [""] + rest
      else [[s[0]] + rest[0]] + rest[1..]
  }

  /** The pieces joined back with commas. */
  function Join(ss: seq<string>): string
    requires |ss| >= 1
    decreases |ss|
  {
    if |ss| == 1 then ss[0] else ss[0] + "," + Join(ss[1..])
  }

  /** Splitting loses nothing: joining the pieces gives back the string. */
  lemma {:induction false} JoinSegments(s: string)
    ensures Join(Segments(s)) == s
  {
    if s != [] {
      JoinSegments(s[1..]);
      var rest := Segments(s[1..]);
      if s[0] == ',' {
        assert Segments(s)[1..] == rest;
      } else if |rest| > 1 {
        assert Segments(s)[1..] == rest[1..];
      }
    }
  }

  /** Every piece is empty exactly when `s` consists of commas only. */
  lemma {:induction false} SegmentsEmptyIffCommas(s: string)
    ensures (forall k :: 0 <= k < |Segments(s)| ==> Segments(s)[k] == "")
            <==> (forall i :: 0 <= i < |s| ==> s[i] == ',')
  {
    if s != [] {
      SegmentsEmptyIffCommas(s[1..]);
      var rest := Segments(s[1..]);
      if s[0] == ',' {
        var segs := Segments(s);
        assert segs == [""] + rest;
        assert (forall k :: 0 <= k < |segs| ==> segs[k] == "")
               <==> (forall k :: 0 <= k < |rest| ==> rest[k] == "") by {
          assert segs[0] == "";
          forall k | 1 <= k < |segs| ensures segs[k] == rest[k - 1] {}
          forall k | 0 <= k < |rest| ensures rest[k] == segs[k + 1] {}
        }
        assert (forall i :: 0 <= i < |s| ==> s[i] == ',')
               <==> (forall i :: 0 <= i < |s[1..]| ==> s[1..][i] == ',') by {
          forall i | 1 <= i < |s| ensures s[i] == s[1..][i - 1] {}
        }
      } else {
        assert Segments(s)[0] != "";
      }
    }
  }

  /** The sequence without its trailing empty strings. */
  function DropTrailingEmpty(ss: seq<string>): (r: seq<string>)
    ensures |r| <= |ss| && r == ss[..|r|]
    ensures forall k :: |r| <= k < |ss| ==> ss[k] == ""
    ensures r != [] ==> r[|r| - 1] != ""
  {
    if ss != [] && ss[|ss| - 1] == "" then DropTrailingEmpty(ss[..|ss| - 1]) else ss
  }

  /** `s.split(",")`: the whole string when it holds no comma; otherwise the
      pieces between commas with the trailing empty ones removed. A
      non-empty string splits into no pieces at all exactly when it is made
      of commas only; otherwise the first piece is the text before the
      first comma. */
  function Split(s: string): (r: seq<string>)
    ensures r == [] <==> s != [] && forall i :: 0 <= i < |s| ==> s[i] == ','
    ensures r != [] ==> r[0] == Segments(s)[0]
  {
    SegmentsEmptyIffCommas(s);
    if ',' !in s then
      assert s != [] ==> s[0] != ',';
      [s]
    else DropTrailingEmpty(Segments(s))
  }

  /** Java's notion of a blank: any character up to the space. */
  predicate IsBlank(c: char) {
    c <= ' '
  }

  /** How many blanks `s` starts with. */
  function LeadingBlanks(s: string): (i: nat)
    ensures i <= |s|
    ensures forall k :: 0 <= k < i ==> IsBlank(s[k])
    ensures i < |s| ==> !IsBlank(s[i])
  {
    if s != [] && IsBlank(s[0]) then 1 + LeadingBlanks(s[1..]) else 0
  }

  /** Where `s` ends once its trailing blanks are dropped, never left of `lo`. */
  function TrailingStart(s: string, lo: nat): (j: nat)
    requires lo <= |s|
    ensures lo <= j <= |s|
    ensures forall k :: j <= k < |s| ==> IsBlank(s[k])
    ensures j > lo ==> !IsBlank(s[j - 1])
    decreases |s|
  {
    if |s| > lo && IsBlank(s[|s| - 1]) then TrailingStart(s[..|s| - 1], lo) else |s|
  }

  /** `String.trim()`: the infix of `s` left once the blanks at both ends are
      removed; it begins and ends with a non-blank, and a string with no
      blank at either end is returned as it is. */
  function Trim(s: string): (r: string)
    ensures LeadingBlanks(s) + |r| <= |s|
    ensures r != [] ==> !IsBlank(r[0]) && !IsBlank(r[|r| - 1])
    ensures r == s[LeadingBlanks(s)..LeadingBlanks(s) + |r|]
    ensures forall k :: 0 <= k < |s| && !IsBlank(s[k]) ==> LeadingBlanks(s) <= k < LeadingBlanks(s) + |r|
    ensures s == [] || (!IsBlank(s[0]) && !IsBlank(s[|s| - 1])) ==> r == s
  {
    var i := LeadingBlanks(s);
    s[i..TrailingStart(s, i)]
  }

  /** Trimming twice is trimming once. */
  lemma TrimIdempotent(s: string)
    ensures Trim(Trim(s)) == Trim(s)
  {
  }

  /** The message of the `ArrayIndexOutOfBoundsException` raised by reading
      the first element of an empty array. */
  const EmptyArrayIndexMessage: string := "Index 0 out of bounds for length 0"

  /** `getClientIpAddress`: the first entry of `X-Forwarded-For`, trimmed;
      failing that `X-Real-IP`; failing that the peer address. A
      `X-Forwarded-For` made of commas only splits into nothing, and taking
      its first entry throws. */
  function ClientIpAddress(req: HttpRequest): (r: Try<string>)
    ensures r.Throw? ==> r.exc == Exception(Runtime, Some(EmptyArrayIndexMessage))
  {
    if Present(req.forwardedFor) then
      var parts := Split(req.forwardedFor.value);
      if parts == [] then Throw(Exception(Runtime, Some(EmptyArrayIndexMessage)))
      else Ok(Trim(parts[0]))
    else if Present(req.realIp) then Ok(req.realIp.value)
    else Ok(req.remoteAddr)
  }

  /** Header precedence: a present `X-Forwarded-For` decides, and fails
      exactly when it is commas only; otherwise its first entry, trimmed.
      Without it `X-Real-IP` decides, and without both the peer address. */
  lemma ClientIpAddressCases(req: HttpRequest)
    ensures var r := ClientIpAddress(req);
            (Present(req.forwardedFor)
             ==> (r.Throw? <==> forall i :: 0 <= i < |req.forwardedFor.value| ==> req.forwardedFor.value[i] == ',')
                 && (r.Ok? ==> r.value == Trim(Segments(req.forwardedFor.value)[0])))
            && (!Present(req.forwardedFor) && Present(req.realIp) ==> r == Ok(req.realIp.value))
            && (!Present(req.forwardedFor) && !Present(req.realIp) ==> r == Ok(req.remoteAddr))
  {
  }

  /** The address taken from `X-Forwarded-For` never contains a comma, and
      it is taken from the text before the first comma. */
  lemma ForwardedAddressIsFirstHop(req: HttpRequest)
    requires Present(req.forwardedFor) && ClientIpAddress(req).Ok?
    ensures ',' !in ClientIpAddress(req).value
    ensures var x := req.forwardedFor.value;
            var first := Segments(x)[0];
            first == x[..|first|] && (|first| == |x| || x[|first|] == ',')
  {
    ClientIpAddressCases(req);
  }
}
