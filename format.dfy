/** PHP's `sprintf`, restricted to the conversions the modelled templates
    use: `%s` (the next argument as a string) and `%%` (a literal percent
    sign). */
module Format {

  /** Every `%` starts `%s` or `%%`; anything else is a conversion this
      model does not cover (PHP would reject a lone trailing `%`). */
  predicate Supported(t: string)
    decreases |t|
  {
    if |t| == 0 then true
    else if t[0] == '%' then |t| >= 2 && (t[1] == 's' || t[1] == '%') && Supported(t[2..])
    else Supported(t[1..])
  }

  /** The number of `%s` conversions, that is, of arguments consumed. */
  function Placeholders(t: string): nat
    decreases |t|
  {
    if |t| == 0 then 0
    else if t[0] == '%' && |t| >= 2 && t[1] == 's' then 1 + Placeholders(t[2..])
    else if t[0] == '%' && |t| >= 2 then Placeholders(t[2..])
    else Placeholders(t[1..])
  }

  /** `sprintf(t, ...args)`. PHP 8 throws when there are fewer arguments
      than conversions and ignores surplus arguments. */
  function Sprintf(t: string, args: seq<string>): (r: string)
    requires Supported(t) && Placeholders(t) <= |args|
    ensures NoPercent(t) ==> r == t
    decreases |t|
  {
    if |t| == 0 then ""
    else if t[0] == '%' && t[1] == 's' then args[0] + Sprintf(t[2..], args[1..])
    else if t[0] == '%' then "%" + Sprintf(t[2..], args)
    else [t[0]] + Sprintf(t[1..], args)
  }

  predicate NoPercent(t: string)
  {
    '%' !in t
  }

  /** Text without `%` is copied through unchanged and consumes nothing. */
  lemma {:induction false} LiteralPrefixShape(p: string, rest: string)
    requires NoPercent(p)
    ensures Supported(p + rest) == Supported(rest)
    ensures Placeholders(p + rest) == Placeholders(rest)
  {
    if p != [] {
      var t := p + rest;
      assert t[0] == p[0] && p[0] != '%';
      assert t[1..] == p[1..] + rest;
      assert NoPercent(p[1..]) by { assert forall c :: c in p[1..] ==> c in p; }
      LiteralPrefixShape(p[1..], rest);
    } else {
      assert p + rest == rest;
    }
  }

  lemma {:induction false} LiteralPrefix(p: string, rest: string, args: seq<string>)
    requires NoPercent(p)
    requires Supported(rest) && Placeholders(rest) <= |args|
    ensures Supported(p + rest) && Placeholders(p + rest) <= |args|
    ensures Sprintf(p + rest, args) == p + Sprintf(rest, args)
  {
    LiteralPrefixShape(p, rest);
    if p == [] {
      assert p + rest == rest;
    } else {
      var q := p[1..];
      assert NoPercent(q) by { assert forall x :: x in q ==> x in p; }
      LiteralPrefixShape(q, rest);
      LiteralPrefix(q, rest, args);
      LiteralPrefixStep(p, rest, args);
    }
  }

  /** One character of the literal prefix, given the rest of the prefix. */
  lemma LiteralPrefixStep(p: string, rest: string, args: seq<string>)
    requires p != [] && p[0] != '%'
    requires Supported(rest) && Placeholders(rest) <= |args|
    requires Supported(p[1..] + rest) && Placeholders(p[1..] + rest) <= |args|
    requires Sprintf(p[1..] + rest, args) == p[1..] + Sprintf(rest, args)
    ensures Supported(p + rest) && Placeholders(p + rest) <= |args|
    ensures Sprintf(p + rest, args) == p + Sprintf(rest, args)
  {
    var q := p[1..];
    SplitHead(p, rest);
    LiteralChar(p[0], q + rest, args);
    Assoc([p[0]], q, Sprintf(rest, args));
  }

  /** A non-empty string is its first character followed by the rest. */
  lemma SplitHead(p: string, rest: string)
    requires p != []
    ensures p == [p[0]] + p[1..]
    ensures p + rest == [p[0]] + (p[1..] + rest)
  {
  }

  lemma LiteralChar(c: char, rest: string, args: seq<string>)
    requires c != '%'
    requires Supported(rest) && Placeholders(rest) <= |args|
    ensures Supported([c] + rest) && Placeholders([c] + rest) <= |args|
    ensures Sprintf([c] + rest, args) == [c] + Sprintf(rest, args)
  {
    assert ([c] + rest)[1..] == rest;
  }

  /** A single `%s` followed by literal text substitutes one argument. */
  lemma OneConversion(s: string, b: string, args: seq<string>)
    requires NoPercent(s) && |args| >= 1 && args[0] == b
    ensures Supported("%s" + s) && Placeholders("%s" + s) == 1
    ensures Sprintf("%s" + s, args) == b + s
  {
    var t := "%s" + s;
    assert t[0] == '%' && t[1] == 's';
    assert t[2..] == s;
    assert t[2..] == s + "";
    LiteralPrefixShape(s, "");
    assert Placeholders("") == 0;
    LiteralPrefix(s, "", args[1..]);
  }

  /** A template with two `%s` between literal parts substitutes the two
      arguments in order. */
  lemma TwoConversions(p: string, m: string, s: string, a: string, b: string)
    requires NoPercent(p) && NoPercent(m) && NoPercent(s)
    ensures Supported(p + "%s" + m + "%s" + s)
    ensures Placeholders(p + "%s" + m + "%s" + s) == 2
    ensures Sprintf(p + "%s" + m + "%s" + s, [a, b]) == p + a + m + b + s
  {
    var template := "%s" + (m + ("%s" + s));
    ConversionsAfterFirst(m, s, a, b);
    LiteralPrefix(p, template, [a, b]);
    LiteralPrefixShape(p, template);
    Regroup(p, "%s", m, "%s", s);
    Regroup(p, a, m, b, s);
  }

  /** The template from its first `%s` on: both arguments, in order. */
  lemma ConversionsAfterFirst(m: string, s: string, a: string, b: string)
    requires NoPercent(m) && NoPercent(s)
    ensures Supported("%s" + (m + ("%s" + s)))
    ensures Placeholders("%s" + (m + ("%s" + s))) == 2
    ensures Sprintf("%s" + (m + ("%s" + s)), [a, b]) == a + (m + (b + s))
  {
    var middle := m + ("%s" + s);
    var template := "%s" + middle;
    assert Supported(middle) && Placeholders(middle) == 1 && Sprintf(middle, [b]) == m + (b + s) by {
      OneConversion(s, b, [b]);
      LiteralPrefix(m, "%s" + s, [b]);
      LiteralPrefixShape(m, "%s" + s);
    }
    assert template[0] == '%' && template[1] == 's';
    assert template[2..] == middle;
    assert [a, b][1..] == [b];
  }

  /** Five strings joined left to right are the same joined right to left. */
  lemma Regroup(v: string, w: string, x: string, y: string, z: string)
    ensures v + w + x + y + z == v + (w + (x + (y + z)))
  {
    Assoc(v + w + x, y, z);
    Assoc(v + w, x, y + z);
    Assoc(v, w, x + (y + z));
  }

  /** The two-argument templates of the log messages: literal text, `%s`,
      literal text, `%s`. */
  function TwoSlotTemplate(p: string, m: string): string
  {
    p + "%s" + m + "%s"
  }

  /** Filling such a template puts the two arguments, in order, after the
      two literal parts. */
  lemma FillTwoSlots(p: string, m: string, a: string, b: string)
    requires NoPercent(p) && NoPercent(m)
    ensures Supported(TwoSlotTemplate(p, m)) && Placeholders(TwoSlotTemplate(p, m)) == 2
    ensures Sprintf(TwoSlotTemplate(p, m), [a, b]) == p + a + m + b
  {
    TwoConversions(p, m, "", a, b);
    assert TwoSlotTemplate(p, m) + "" == TwoSlotTemplate(p, m);
    assert p + a + m + b + "" == p + a + m + b;
  }

  lemma Assoc(x: string, y: string, z: string)
    ensures x + (y + z) == x + y + z
  {
  }
}
