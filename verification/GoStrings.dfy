/**
 The part of Go's strings and unicode packages the console, the backup tool and the
 seed tool share: strings.TrimSpace over the Unicode White_Space characters, and
 unicode.IsDigit.
 */
module GoStrings {

  predicate IsSpace(c: char) {
    || c == ' ' || '\t' <= c <= '\r'
    || c == '\U{85}' || c == '\U{A0}' || c == '\U{1680}'
    || '\U{2000}' <= c <= '\U{200A}'
    || c == '\U{2028}' || c == '\U{2029}' || c == '\U{202F}' || c == '\U{205F}' || c == '\U{3000}'
  }

  /** unicode.IsDigit: the decimal digits (category Nd) of Unicode 15.0. */
  predicate IsDigit(c: char) {
    || '\U{30}' <= c <= '\U{39}' || '\U{660}' <= c <= '\U{669}' || '\U{6F0}' <= c <= '\U{6F9}'
    || '\U{7C0}' <= c <= '\U{7C9}' || '\U{966}' <= c <= '\U{96F}' || '\U{9E6}' <= c <= '\U{9EF}'
    || '\U{A66}' <= c <= '\U{A6F}' || '\U{AE6}' <= c <= '\U{AEF}' || '\U{B66}' <= c <= '\U{B6F}'
    || '\U{BE6}' <= c <= '\U{BEF}' || '\U{C66}' <= c <= '\U{C6F}' || '\U{CE6}' <= c <= '\U{CEF}'
    || '\U{D66}' <= c <= '\U{D6F}' || '\U{DE6}' <= c <= '\U{DEF}' || '\U{E50}' <= c <= '\U{E59}'
    || '\U{ED0}' <= c <= '\U{ED9}' || '\U{F20}' <= c <= '\U{F29}' || '\U{1040}' <= c <= '\U{1049}'
    || '\U{1090}' <= c <= '\U{1099}' || '\U{17E0}' <= c <= '\U{17E9}' || '\U{1810}' <= c <= '\U{1819}'
    || '\U{1946}' <= c <= '\U{194F}' || '\U{19D0}' <= c <= '\U{19D9}' || '\U{1A80}' <= c <= '\U{1A89}'
    || '\U{1A90}' <= c <= '\U{1A99}' || '\U{1B50}' <= c <= '\U{1B59}' || '\U{1BB0}' <= c <= '\U{1BB9}'
    || '\U{1C40}' <= c <= '\U{1C49}' || '\U{1C50}' <= c <= '\U{1C59}' || '\U{A620}' <= c <= '\U{A629}'
    || '\U{A8D0}' <= c <= '\U{A8D9}' || '\U{A900}' <= c <= '\U{A909}' || '\U{A9D0}' <= c <= '\U{A9D9}'
    || '\U{A9F0}' <= c <= '\U{A9F9}' || '\U{AA50}' <= c <= '\U{AA59}' || '\U{ABF0}' <= c <= '\U{ABF9}'
    || '\U{FF10}' <= c <= '\U{FF19}' || '\U{104A0}' <= c <= '\U{104A9}' || '\U{10D30}' <= c <= '\U{10D39}'
    || '\U{11066}' <= c <= '\U{1106F}' || '\U{110F0}' <= c <= '\U{110F9}' || '\U{11136}' <= c <= '\U{1113F}'
    || '\U{111D0}' <= c <= '\U{111D9}' || '\U{112F0}' <= c <= '\U{112F9}' || '\U{11450}' <= c <= '\U{11459}'
    || '\U{114D0}' <= c <= '\U{114D9}' || '\U{11650}' <= c <= '\U{11659}' || '\U{116C0}' <= c <= '\U{116C9}'
    || '\U{11730}' <= c <= '\U{11739}' || '\U{118E0}' <= c <= '\U{118E9}' || '\U{11950}' <= c <= '\U{11959}'
    || '\U{11C50}' <= c <= '\U{11C59}' || '\U{11D50}' <= c <= '\U{11D59}' || '\U{11DA0}' <= c <= '\U{11DA9}'
    || '\U{11F50}' <= c <= '\U{11F59}' || '\U{16A60}' <= c <= '\U{16A69}' || '\U{16AC0}' <= c <= '\U{16AC9}'
    || '\U{16B50}' <= c <= '\U{16B59}' || '\U{1D7CE}' <= c <= '\U{1D7FF}' || '\U{1E140}' <= c <= '\U{1E149}'
    || '\U{1E2F0}' <= c <= '\U{1E2F9}' || '\U{1E4F0}' <= c <= '\U{1E4F9}' || '\U{1E950}' <= c <= '\U{1E959}'
    || '\U{1FBF0}' <= c <= '\U{1FBF9}'
  }

  /** No white space at either end. */
  predicate Trimmed(s: string) {
    s == "" || (!IsSpace(s[0]) && !IsSpace(s[|s| - 1]))
  }

  function TrimSpace(s: string): (r: string)
    ensures Trimmed(r)
    ensures Trimmed(s) ==> r == s
  {
    if s == "" then ""
    else if IsSpace(s[0]) then TrimSpace(s[1..])
    else if IsSpace(s[|s| - 1]) then TrimSpace(s[..|s| - 1])
    else s
  }

  predicate AllSpace(s: string) {
    forall i :: 0 <= i < |s| ==> IsSpace(s[i])
  }

  lemma AllSpaceConcat(a: string, b: string)
    ensures AllSpace(a + b) <==> AllSpace(a) && AllSpace(b)
  {
    assert forall i :: 0 <= i < |a| ==> (a + b)[i] == a[i];
    assert forall i :: 0 <= i < |b| ==> (a + b)[|a| + i] == b[i];
  }

  lemma Regroup(x: string, b: string, t: string, a: string, y: string)
    ensures x + (b + t + a) + y == (x + b) + t + (a + y)
  {
  }

  /** The text is white space, the trimmed text, white space. */
  lemma {:induction false} TrimSplits(s: string) returns (before: string, after: string)
    ensures s == before + TrimSpace(s) + after && AllSpace(before) && AllSpace(after)
  {
    before, after := "", "";
    if s == "" {
    } else if IsSpace(s[0]) {
      var b, a := TrimSplits(s[1..]);
      before, after := [s[0]] + b, a + "";
      AllSpaceConcat([s[0]], b);
      Regroup([s[0]], b, TrimSpace(s[1..]), a, "");
      assert s == [s[0]] + s[1..] + "";
    } else if IsSpace(s[|s| - 1]) {
      var b, a := TrimSplits(s[..|s| - 1]);
      before, after := "" + b, a + [s[|s| - 1]];
      AllSpaceConcat(a, [s[|s| - 1]]);
      Regroup("", b, TrimSpace(s[..|s| - 1]), a, [s[|s| - 1]]);
      assert s == "" + s[..|s| - 1] + [s[|s| - 1]];
    }
  }

  /** Nothing is left exactly of white space. */
  lemma TrimEmpty(s: string)
    ensures TrimSpace(s) == "" <==> AllSpace(s)
  {
    var before, after := TrimSplits(s);
    var t := TrimSpace(s);
    AllSpaceConcat(before + t, after);
    AllSpaceConcat(before, t);
  }
}
