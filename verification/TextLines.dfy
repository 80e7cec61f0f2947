/**
 Texts made of lines: the first line of a text is determined by the text.
 */
module TextLines {

  predicate OneLine(s: string) {
    '\n' !in s
  }

  // Everything up to the first newline, and everything after it.
  lemma FirstLineIsUnique(a: string, rest: string, b: string, rest': string)
    requires a + "\n" + rest == b + "\n" + rest' && OneLine(a) && OneLine(b)
    ensures a == b && rest == rest'
  {
    var whole := a + "\n" + rest;
    assert whole[|a|] == '\n';
    assert whole == b + "\n" + rest' && whole[|b|] == '\n';
    assert forall k :: 0 <= k < |a| ==> whole[k] == a[k];
    assert forall k :: 0 <= k < |b| ==> whole[k] == b[k];
    assert a == whole[..|a|] && b == whole[..|b|];
    assert rest == whole[|a| + 1..] && rest' == whole[|b| + 1..];
  }

  lemma StripPrefix(p: string, a: string, b: string)
    requires p + a == p + b
    ensures a == b
  {
    assert (p + a)[|p|..] == a && (p + b)[|p|..] == b;
  }
}
