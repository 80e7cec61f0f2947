/**
 The text a maintainer signs to authorize a recovery. It must stand for one recovery only.
 */
module AuthorizationText {
  import opened TextLines

  const SCHEMA := "gentle-ai.review-recovery-authorization/v1"

  function Signed(actor: string, reason: string): string {
    ("actor=" + actor) + "\n" + ("reason=" + reason)
  }

  // An empty successor leaves its line out.
  function Signers(successor: string, actor: string, reason: string): string {
    if successor != "" then ("successor_lineage=" + successor) + "\n" + Signed(actor, reason) else Signed(actor, reason)
  }

  function Authorization(lineage: string, revision: string, target: string, successor: string, actor: string,
                         reason: string): string {
    SCHEMA + "\n" + (("predecessor_lineage=" + lineage) + "\n" + (("predecessor_revision=" + revision) + "\n" +
      (("target_identity=" + target) + "\n" + Signers(successor, actor, reason))))
  }

  // One "name=value" line in front of a text determines the value and the text.
  lemma LineIsUnique(name: string, a: string, rest: string, b: string, rest': string)
    requires OneLine(name) && OneLine(a) && OneLine(b)
    requires (name + a) + "\n" + rest == (name + b) + "\n" + rest'
    ensures a == b && rest == rest'
  {
    FirstLineIsUnique(name + a, rest, name + b, rest');
    StripPrefix(name, a, b);
  }

  lemma SignedIsUnique(actor: string, reason: string, actor': string, reason': string)
    requires Signed(actor, reason) == Signed(actor', reason') && OneLine(actor) && OneLine(actor')
    ensures actor == actor' && reason == reason'
  {
    LineIsUnique("actor=", actor, "reason=" + reason, actor', "reason=" + reason');
    StripPrefix("reason=", reason, reason');
  }

  lemma SignersAreUnique(s: string, a: string, r: string, s': string, a': string, r': string)
    requires Signers(s, a, r) == Signers(s', a', r')
    requires OneLine(s) && OneLine(a) && OneLine(s') && OneLine(a')
    ensures s == s' && a == a' && r == r'
  {
    assert Signers(s, a, r)[0] == if s == "" then 'a' else 's';
    assert Signers(s', a', r')[0] == if s' == "" then 'a' else 's';
    if s == "" && s' == "" {
      SignedIsUnique(a, r, a', r');
    } else if s != "" && s' != "" {
      LineIsUnique("successor_lineage=", s, Signed(a, r), s', Signed(a', r'));
      SignedIsUnique(a, r, a', r');
    } else {
      assert false;
    }
  }

  lemma SuccessorIsUnique(s: string, a: string, r: string, s': string, a': string, r': string)
    requires Signers(s, a, r) == Signers(s', a', r') && OneLine(s) && OneLine(s')
    ensures s == s'
  {
    assert Signers(s, a, r)[0] == if s == "" then 'a' else 's';
    assert Signers(s', a', r')[0] == if s' == "" then 'a' else 's';
    if s != "" && s' != "" { LineIsUnique("successor_lineage=", s, Signed(a, r), s', Signed(a', r')); }
  }

  // The lines of the binding, read off the text, whatever follows them.
  lemma BindingLinesAreUnique(l: string, v: string, t: string, s: string, a: string, r: string,
                              l': string, v': string, t': string, s': string, a': string, r': string)
    requires OneLine(l) && OneLine(v) && OneLine(t) && OneLine(l') && OneLine(v') && OneLine(t')
    requires Authorization(l, v, t, s, a, r) == Authorization(l', v', t', s', a', r')
    ensures l == l' && v == v' && t == t' && Signers(s, a, r) == Signers(s', a', r')
  {
    hide Signers;
    var third, third' := ("target_identity=" + t) + "\n" + Signers(s, a, r), ("target_identity=" + t') + "\n" + Signers(s', a', r');
    var second, second' := ("predecessor_revision=" + v) + "\n" + third, ("predecessor_revision=" + v') + "\n" + third';
    var first, first' := ("predecessor_lineage=" + l) + "\n" + second, ("predecessor_lineage=" + l') + "\n" + second';
    StripPrefix(SCHEMA + "\n", first, first');
    LineIsUnique("predecessor_lineage=", l, second, l', second');
    LineIsUnique("predecessor_revision=", v, third, v', third');
    LineIsUnique("target_identity=", t, Signers(s, a, r), t', Signers(s', a', r'));
  }

  /** One text stands for one binding and one successor, whatever the actor and the reason contain. */
  lemma BindingIsUnambiguous(l: string, v: string, t: string, s: string, a: string, r: string,
                             l': string, v': string, t': string, s': string, a': string, r': string)
    requires OneLine(l) && OneLine(v) && OneLine(t) && OneLine(s)
    requires OneLine(l') && OneLine(v') && OneLine(t') && OneLine(s')
    requires Authorization(l, v, t, s, a, r) == Authorization(l', v', t', s', a', r')
    ensures l == l' && v == v' && t == t' && s == s'
  {
    hide Signers, Authorization;
    BindingLinesAreUnique(l, v, t, s, a, r, l', v', t', s', a', r');
    SuccessorIsUnique(s, a, r, s', a', r');
  }

  /** The authorization text is unambiguous: with no newline in any field before the reason, equal texts
      authorize the same predecessor, revision, target, successor (or its absence), actor and reason. So
      a text accepted for one binding is accepted for no other. */
  lemma AuthorizationIsUnambiguous(l: string, v: string, t: string, s: string, a: string, r: string,
                                   l': string, v': string, t': string, s': string, a': string, r': string)
    requires OneLine(l) && OneLine(v) && OneLine(t) && OneLine(s) && OneLine(a)
    requires OneLine(l') && OneLine(v') && OneLine(t') && OneLine(s') && OneLine(a')
    requires Authorization(l, v, t, s, a, r) == Authorization(l', v', t', s', a', r')
    ensures l == l' && v == v' && t == t' && s == s' && a == a' && r == r'
  {
    hide Signers, Authorization;
    BindingLinesAreUnique(l, v, t, s, a, r, l', v', t', s', a', r');
    SignersAreUnique(s, a, r, s', a', r');
  }

  // The condition is needed: a newline in the actor can pass for the start of the reason.
  lemma NewlineInActorIsAmbiguous(l: string, v: string, t: string, s: string, a: string, r: string)
    ensures Authorization(l, v, t, s, a + "\n" + "reason=x", r) == Authorization(l, v, t, s, a, "x" + "\n" + "reason=" + r)
  {
    assert Signed(a + "\n" + "reason=x", r) == Signed(a, "x" + "\n" + "reason=" + r) by {
      assert "reason=x" == "reason=" + "x";
    }
  }
}
