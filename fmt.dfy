/** The part of Go's fmt.Sprintf that the pod utilities use: the %s verb. */
module Fmt {

  /**
   * Formats `format`, replacing each "%s" in turn by the next argument and
   * copying every other character; a format without verbs and without
   * arguments is copied unchanged, as in Go. Go's diagnostics for missing or extra
   * arguments and every other verb are not modelled.
   */
  function Sprintf(format: string, args: seq<string>): (r: string)
    ensures |args| == 0 && (forall k :: 0 <= k < |format| ==> format[k] != '%') ==> r == format
    decreases |format|
  {
    if |format| >= 2 && format[0] == '%' && format[1] == 's' && |args| > 0 then
      args[0] + Sprintf(format[2..], args[1..])
    else if |format| > 0 then
      [format[0]] + Sprintf(format[1..], args)
    else
      ""
  }

  /** A leading %s consumes the first argument. */
  lemma SprintfVerb(rest: string, arg: string, args: seq<string>)
    ensures Sprintf("%s" + rest, [arg] + args) == arg + Sprintf(rest, args)
  {
    var f := "%s" + rest;
    assert f[2..] == rest;
    assert ([arg] + args)[1..] == args;
  }

  /** A leading character other than '%' is copied. */
  lemma SprintfChar(c: char, rest: string, args: seq<string>)
    requires c != '%'
    ensures Sprintf([c] + rest, args) == [c] + Sprintf(rest, args)
  {
    assert ([c] + rest)[1..] == rest;
  }

  /**
   * With one argument per verb, a format of the shape "%s<c1>%s<c2>%s<c3>%s"
   * produces the arguments joined by the three separators.
   */
  lemma {:induction false} SprintfFourArgs(c1: char, c2: char, c3: char, a: string, b: string, c: string, d: string)
    requires c1 != '%' && c2 != '%' && c3 != '%'
    ensures Sprintf(['%', 's', c1, '%', 's', c2, '%', 's', c3, '%', 's'], [a, b, c, d])
         == a + [c1] + b + [c2] + c + [c3] + d
  {
    var s := "%s";
    var f4 := s;
    var f3 := [c3] + f4;
    var f2 := s + f3;
    var g2 := [c2] + f2;
    var g1 := s + g2;
    var h1 := [c1] + g1;
    var f := s + h1;
    assert f == ['%', 's', c1, '%', 's', c2, '%', 's', c3, '%', 's'];
    assert [a, b, c, d] == [a] + [b, c, d];
    assert [b, c, d] == [b] + [c, d];
    assert [c, d] == [c] + [d];
    assert [d] == [d] + [];
    calc {
      Sprintf(f, [a, b, c, d]);
      { SprintfVerb(h1, a, [b, c, d]); }
      a + Sprintf(h1, [b, c, d]);
      { SprintfChar(c1, g1, [b, c, d]); }
      a + [c1] + Sprintf(g1, [b, c, d]);
      { SprintfVerb(g2, b, [c, d]); }
      a + [c1] + b + Sprintf(g2, [c, d]);
      { SprintfChar(c2, f2, [c, d]); }
      a + [c1] + b + [c2] + Sprintf(f2, [c, d]);
      { SprintfVerb(f3, c, [d]); }
      a + [c1] + b + [c2] + c + Sprintf(f3, [d]);
      { SprintfChar(c3, f4, [d]); }
      a + [c1] + b + [c2] + c + [c3] + Sprintf(f4, [d]);
      { SprintfVerb("", d, []); assert s + "" == s; }
      a + [c1] + b + [c2] + c + [c3] + d + Sprintf("", []);
    }
  }
}
