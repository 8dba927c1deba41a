/** Names of the files that hold buffered messages: `<sanitised topic>_<seq>.bin`. */
module FileNames {
  import opened Base

  function SanitizeChar(c: char): char {
    if c == '/' || c == '\\' || c == ' ' then '_' else c
  }

  function Sanitize(topic: Topic): (st: string)
    ensures |st| == |topic|
  {
    seq(|topic|, i requires 0 <= i < |topic| => SanitizeChar(topic[i]))
  }

  /** A topic that the disk buffer can give back: non-empty and unchanged by sanitising. */
  predicate Stable(topic: Topic) {
    topic != "" && Sanitize(topic) == topic
  }

  function Digit(d: int): char
    requires 0 <= d < 10
  {
    '0' + d as char
  }

  predicate IsDigit(c: char) {
    '0' <= c <= '9'
  }

  function DigitValue(c: char): int
    requires IsDigit(c)
  {
    c as int - '0' as int
  }

  /** `strconv.FormatUint(n, 10)`. */
  function Format(n: nat): string {
    if n < 10 then [Digit(n)] else Format(n / 10) + [Digit(n % 10)]
  }

  predicate AllDigits(s: string) {
    forall i :: 0 <= i < |s| ==> IsDigit(s[i])
  }

  function DecimalValue(s: string): nat
    requires AllDigits(s)
  {
    if s == "" then 0
    else 10 * DecimalValue(s[..|s| - 1]) + DigitValue(s[|s| - 1])
  }

  /** `strconv.ParseUint(s, 10, 64)`: digits only, at least one, no overflow. */
  function ParseUint(s: string): Option<uint64> {
    if s == "" || !AllDigits(s) then None
    else if DecimalValue(s) >= U64 then None
    else Some(DecimalValue(s))
  }

  /** `strings.LastIndex` of a single character. */
  function LastIndex(s: string, c: char): (i: int)
    ensures -1 <= i < |s|
  {
    if s == "" then -1
    else if s[|s| - 1] == c then |s| - 1
    else LastIndex(s[..|s| - 1], c)
  }

  const SUFFIX := ".bin"

  function FileName(topic: Topic, n: uint64): string {
    Sanitize(topic) + "_" + Format(n) + SUFFIX
  }

  /** The file-name half of `restoreBufferFromDisk`: None where the source skips the file. */
  function ParseName(name: string): Option<(Topic, uint64)> {
    if |name| < |SUFFIX| || name[|name| - |SUFFIX|..] != SUFFIX then None
    else
      var stem := name[..|name| - |SUFFIX|];
      var us := LastIndex(stem, '_');
      if us <= 0 then None
      else
        match ParseUint(stem[us + 1..])
        case None => None
        case Some(n) => Some((stem[..us], n))
  }

  lemma {:induction false} FormatParses(n: nat)
    ensures AllDigits(Format(n)) && Format(n) != "" && DecimalValue(Format(n)) == n
  {
    if n < 10 {
    } else {
      FormatParses(n / 10);
      var s := Format(n);
      assert s[..|s| - 1] == Format(n / 10);
    }
  }

  /** Two digit strings without leading zeros that have the same value are equal. */
  lemma {:induction false} DecimalUnique(a: string, b: string)
    requires AllDigits(a) && AllDigits(b) && a != "" && b != "" && DecimalValue(a) == DecimalValue(b)
    requires (|a| > 1 ==> a[0] != '0') && (|b| > 1 ==> b[0] != '0')
    ensures a == b
  {
    var a', b' := a[..|a| - 1], b[..|b| - 1];
    assert a == a' + [a[|a| - 1]] && b == b' + [b[|b| - 1]];
    if a' == "" || b' == "" {
      LeadingDigit(a');
      LeadingDigit(b');
    } else {
      DecimalUnique(a', b');
    }
  }

  lemma {:induction false} LeadingDigit(s: string)
    requires AllDigits(s)
    ensures s != "" && s[0] != '0' ==> DecimalValue(s) > 0
  {
    if |s| > 1 {
      LeadingDigit(s[..|s| - 1]);
    }
  }

  lemma {:induction false} FormatLeads(n: nat)
    ensures Format(n) != "" && (Format(n)[0] == '0' <==> n == 0) && (n == 0 ==> Format(n) == "0")
  {
    if n >= 10 {
      FormatLeads(n / 10);
    }
  }

  /** A file is named by the sanitised topic, an underscore, the number in decimal without leading
      zeros, and ".bin"; no other spelling of the number is ever written. */
  lemma NameSpelled(topic: Topic, n: uint64, ds: string)
    requires AllDigits(ds) && ds != "" && (|ds| > 1 ==> ds[0] != '0') && DecimalValue(ds) == n
    ensures FileName(topic, n) == Sanitize(topic) + "_" + ds + ".bin"
    ensures forall d :: 0 <= d < 10 ==> Digit(d) == "0123456789"[d]
  {
    FormatParses(n);
    FormatLeads(n);
    DecimalUnique(Format(n), ds);
  }

  lemma {:induction false} LastIndexOf(prefix: string, c: char, suffix: string)
    requires c !in suffix
    ensures LastIndex(prefix + [c] + suffix, c) == |prefix|
  {
    var s := prefix + [c] + suffix;
    if suffix != "" {
      var shorter := suffix[..|suffix| - 1];
      assert s[|s| - 1] == suffix[|suffix| - 1];
      assert s[..|s| - 1] == prefix + [c] + shorter;
      LastIndexOf(prefix, c, shorter);
    }
  }

  /** The last underscore of a written name is the separator, whatever the topic holds. */
  lemma SeparatorFound(topic: Topic, n: uint64)
    ensures var name := FileName(topic, n);
            && |name| >= |SUFFIX| && name[|name| - |SUFFIX|..] == SUFFIX
            && var stem := name[..|name| - |SUFFIX|];
            && LastIndex(stem, '_') == |topic|
            && stem[..|topic|] == Sanitize(topic)
            && stem[|topic| + 1..] == Format(n)
  {
    var st, num := Sanitize(topic), Format(n);
    var name := FileName(topic, n);
    FormatParses(n);
    LastIndexOf(st, '_', num);
    assert name[..|name| - |SUFFIX|] == st + ['_'] + num;
    assert (st + ['_'] + num)[|topic| + 1..] == num;
  }

  /** Writing a name and parsing it back gives the sanitised topic and the number, except
      that the files of the empty topic are always skipped. */
  lemma NameRoundTrip(topic: Topic, n: uint64)
    ensures ParseName(FileName(topic, n)) ==
            if topic == "" then None else Some((Sanitize(topic), n))
  {
    SeparatorFound(topic, n);
    FormatParses(n);
  }

  /** Two writes hit the same file exactly when sanitised topics and numbers agree. */
  lemma NameCollision(t1: Topic, n1: uint64, t2: Topic, n2: uint64)
    ensures FileName(t1, n1) == FileName(t2, n2) <==> Sanitize(t1) == Sanitize(t2) && n1 == n2
  {
    SeparatorFound(t1, n1);
    SeparatorFound(t2, n2);
    FormatParses(n1);
    FormatParses(n2);
  }

  /** A name is read back as (t, n) exactly when it is t, an underscore, digits with value n and
      the suffix; t is not empty, and n fits in 64 bits. */
  lemma ParseNameIff(name: string, t: Topic, n: uint64)
    ensures ParseName(name) == Some((t, n)) <==> t != "" && exists ds :: Spells(name, t, ds, n)
  {
    if ParseName(name) == Some((t, n)) {
      var stem := name[..|name| - |SUFFIX|];
      var us := LastIndex(stem, '_');
      LastIndexFound(stem, '_');
      assert name == stem + SUFFIX && stem == stem[..us] + "_" + stem[us + 1..];
      assert Spells(name, t, stem[us + 1..], n);
    }
    if t != "" && exists ds :: Spells(name, t, ds, n) {
      var ds :| Spells(name, t, ds, n);
      var stem := t + ['_'] + ds;
      LastIndexOf(t, '_', ds);
      assert name[..|name| - |SUFFIX|] == stem;
      assert stem[|t| + 1..] == ds && stem[..|t|] == t;
    }
  }

  ghost predicate Spells(name: string, t: Topic, ds: string, n: uint64) {
    ds != "" && AllDigits(ds) && DecimalValue(ds) == n && name == t + "_" + ds + ".bin"
  }

  lemma {:induction false} LastIndexFound(s: string, c: char)
    ensures LastIndex(s, c) >= 0 ==> s[LastIndex(s, c)] == c
  {
    if s != "" && s[|s| - 1] != c {
      LastIndexFound(s[..|s| - 1], c);
    }
  }

  lemma SanitizeIdempotent(topic: Topic)
    ensures Sanitize(Sanitize(topic)) == Sanitize(topic)
    ensures forall i :: 0 <= i < |topic| ==>
              Sanitize(topic)[i] == topic[i] || (topic[i] in {'/', '\\', ' '} && Sanitize(topic)[i] == '_')
    ensures forall c :: c in Sanitize(topic) ==> c !in {'/', '\\', ' '}
    ensures Sanitize(topic) == topic <==> forall c :: c in topic ==> c !in {'/', '\\', ' '}
  {
    var st := Sanitize(topic);
    assert Sanitize(st) == st;
    if forall c :: c in topic ==> c !in {'/', '\\', ' '} {
      assert forall i :: 0 <= i < |topic| ==> topic[i] in topic;
      assert st == topic;
    }
  }
}
