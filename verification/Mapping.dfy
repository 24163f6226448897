/** Cleaning the values a foreign file holds (crates/remoter-import/src/mapping.rs:26-119, 281-302). */
module Mapping {
  import opened Base
  import opened Text
  import opened Validation

  const CREDENTIALS_SUFFIX := " credentials"
  const UNNAMED := "Imported credential"

  function Take(s: string, n: nat): string {
    if |s| <= n then s else s[..n]
  }

  function WithoutControls(s: string): (r: string)
    ensures forall c :: c in r <==> c in s && !IsControl(c)
    ensures !HasControl(s) ==> r == s
  {
    if s == [] then []
    else
      var rest := WithoutControls(s[1..]);
      assert !HasControl(s) ==> !IsControl(s[0]) && forall i :: 0 <= i < |s[1..]| ==> s[1..][i] == s[i + 1];
      if IsControl(s[0]) then rest else [s[0]] + rest
  }

  function CleanName(raw: string): string {
    Take(Trim(WithoutControls(raw)), MAX_NAME_LEN)
  }

  function CleanDescription(raw: string): string {
    Take(raw, MAX_DESCRIPTION_LEN)
  }

  lemma TakeMembers(s: string, n: nat)
    ensures forall c :: c in Take(s, n) ==> c in s
    ensures n > 0 ==> (Take(s, n) == [] <==> s == [])
  {
  }

  /** A cleaned name is one the domain model accepts, unless nothing is left of it. */
  lemma {:induction false} CleanNameValid(raw: string)
    ensures CleanName(raw) != [] ==> ValidateName(CleanName(raw)).None?
    ensures |CleanName(raw)| <= MAX_NAME_LEN && !HasControl(CleanName(raw))
    ensures forall c :: c in CleanName(raw) ==> c in raw
  {
    var stripped := WithoutControls(raw);
    TakeMembers(Trim(stripped), MAX_NAME_LEN);
    assert forall c :: c in CleanName(raw) ==> c in stripped;
    assert forall i :: 0 <= i < |CleanName(raw)| ==> CleanName(raw)[i] in CleanName(raw);
  }

  lemma {:induction false} TrimStartKeeps(s: string, c: char)
    requires c in s && !IsWhitespace(c)
    ensures c in TrimStart(s)
  {
    if IsWhitespace(s[0]) {
      TrimStartKeeps(s[1..], c);
    }
  }

  lemma {:induction false} TrimEndKeeps(s: string, c: char)
    requires c in s && !IsWhitespace(c)
    ensures c in TrimEnd(s)
  {
    if IsWhitespace(s[|s| - 1]) {
      TrimEndKeeps(s[..|s| - 1], c);
    }
  }

  /** Something is left as soon as one character is printable. */
  lemma {:induction false} CleanNameKeeps(raw: string, c: char)
    requires c in raw && !IsControl(c) && !IsWhitespace(c)
    ensures CleanName(raw) != []
  {
    var stripped := WithoutControls(raw);
    TrimStartKeeps(stripped, c);
    TrimEndKeeps(TrimStart(stripped), c);
    TakeMembers(Trim(stripped), MAX_NAME_LEN);
    assert c in Trim(stripped);
  }

  /** A host the domain model accepts names itself. */
  lemma {:induction false} HostNamesItself(host: string)
    requires ValidateHost(host).None?
    ensures CleanName(host) != []
  {
    assert host[0] in host;
    FirstPiece(host, '.');
    if host[0] != '[' {
      if ValidIpv4(host) {
        assert ValidOctet(Split(host, '.')[0]);
        assert IsDigit(host[0]);
      } else {
        DnsStart(host);
      }
    }
    CleanNameKeeps(host, host[0]);
  }

  lemma DnsStart(host: string)
    requires ValidDnsName(host)
    ensures host != [] && IsAlphanumeric(host[0])
  {
    var name := if host != [] && host[|host| - 1] == '.' then host[..|host| - 1] else host;
    var labels := Split(name, '.');
    FirstPiece(name, '.');
    assert forall i :: 0 <= i < |labels| ==> ValidLabel(labels[i]);
    assert labels[0] != [] && IsAlphanumeric(labels[0][0]);
  }

  lemma FirstPiece(s: string, separator: char)
    ensures Split(s, separator)[0] != [] ==> s != [] && s[0] == Split(s, separator)[0][0]
  {
  }

  // Credential names.

  predicate Nobody(username: string, domain: Option<string>) {
    username == [] && (domain.None? || domain.value == [])
  }

  function CredentialName(source: string, username: string, domain: Option<string>): string {
    var named :=
      if domain.Some? && domain.value != [] && username != [] then domain.value + "\\" + username
      else if username != [] then username
      else CleanName(source);
    var cleaned := CleanName(named);
    if cleaned == [] then UNNAMED
    else if Nobody(username, domain) then cleaned + CREDENTIALS_SUFFIX
    else cleaned
  }

  /** Cleaning a name that is already acceptable only takes off what trailing space a cut left. */
  lemma {:induction false} CleanAgain(name: string)
    requires |name| <= MAX_NAME_LEN && !HasControl(name)
    ensures CleanName(name) == Trim(name) == CleanName(CleanName(name))
  {
    TrimTwice(name);
    CleanNameValid(name);
  }

  /** The name of a credential is acceptable except when the suffix overflows it. */
  lemma {:induction false} CredentialNameExact(source: string, username: string, domain: Option<string>)
    requires ValidateName(source).None?
    ensures ValidateName(CredentialName(source, username, domain)).None? <==>
            !(Nobody(username, domain) && |Trim(source)| + |CREDENTIALS_SUFFIX| > MAX_NAME_LEN)
  {
    hide CleanName, Trim, HasControl;
    CleanAgain(source);
    FixedNames();
    CleanNameValid(CleanName(source));
    if Nobody(username, domain) {
      NoControls(Trim(source), CREDENTIALS_SUFFIX);
    } else {
      CleanNameValid(username);
      if domain.Some? {
        CleanNameValid(domain.value + "\\" + username);
      }
    }
  }

  lemma FixedNames()
    ensures ValidateName(UNNAMED).None? && !HasControl(CREDENTIALS_SUFFIX)
  {
  }

  lemma NoControls(a: string, b: string)
    requires !HasControl(a) && !HasControl(b)
    ensures !HasControl(a + b)
  {
  }

  // Custom fields.

  function Lowercase(s: string): string {
    seq(|s|, i requires 0 <= i < |s| => ToLower(s[i]))
  }

  function CustomKey(namespace: string, name: string): (r: Option<string>)
    ensures r.Some? ==> ValidKey(r.value)
  {
    var key := namespace + "." + name;
    if ValidKey(key) then Some(key) else None
  }

  /** Keeps a value under its key, up to the ceiling; the first value of a key stays. */
  function Preserved(fields: map<string, string>, key: string, value: string, maxFields: nat): map<string, string> {
    if |fields| >= maxFields || key in fields then fields else fields[key := value]
  }

  // Ports.

  function Number(digits: string): nat
    requires AllDigits(digits)
  {
    if digits == [] then 0 else 10 * Number(digits[..|digits| - 1]) + (digits[|digits| - 1] as int - '0' as int)
  }

  /** `parse::<u16>`, which takes a leading plus, and then the port rule. */
  function ParsePort(raw: string): (r: Option<nat>)
    ensures r.Some? ==> 0 < r.value < 0x1_0000
  {
    var text := Trim(raw);
    var digits := if text != [] && text[0] == '+' then text[1..] else text;
    if digits == [] || !AllDigits(digits) || Number(digits) == 0 || Number(digits) > 0xFFFF then None
    else Some(Number(digits))
  }

  // Octets by their number.

  /** An octet of an IPv4 address is a number up to 255 without leading zeros. */
  lemma OctetExact(s: string)
    ensures ValidOctet(s) <==> s != "" && AllDigits(s) && Number(s) <= 255 && (|s| > 1 ==> s[0] != '0')
  {
    if s != "" && AllDigits(s) {
      assert Number(s[..0]) == 0;
      assert |s| == 1 ==> s[..|s| - 1] == [];
      if |s| == 2 {
        assert s[..1][..0] == [];
        assert Number(s[..1]) == s[0] as int - '0' as int;
      } else if |s| == 3 {
        assert s[..2][..1] == s[..1] && s[..1][..0] == [];
        assert Number(s[..1]) == s[0] as int - '0' as int;
        assert Number(s[..2]) == 10 * (s[0] as int - '0' as int) + (s[1] as int - '0' as int);
      } else if |s| > 3 && s[0] != '0' {
        LongNumber(s);
      }
    }
  }

  lemma {:induction false} LongNumber(s: string)
    requires |s| > 0 && AllDigits(s) && s[0] != '0'
    ensures Number(s) >= 1 && (|s| > 1 ==> Number(s) >= 10) && (|s| > 2 ==> Number(s) >= 100) && (|s| > 3 ==> Number(s) >= 1000)
  {
    if |s| > 1 {
      LongNumber(s[..|s| - 1]);
    } else {
      assert s[..0] == [];
    }
  }

  // Hosts by what they spell.

  /** Four numbers up to 255 without leading zeros, joined by dots. */
  lemma {:induction false} Ipv4Exact(host: string)
    ensures ValidIpv4(host) <==>
            exists parts: seq<string> :: |parts| == 4 && host == Join(parts, '.') && forall i :: 0 <= i < 4 ==> Octet(parts[i])
  {
    hide ValidOctet, Number, Octet, Split, Join;
    JoinUndoesSplit(host, '.');
    var octets := Split(host, '.');
    forall s ensures ValidOctet(s) <==> Octet(s) {
      OctetIs(s);
    }
    if exists parts: seq<string> :: |parts| == 4 && host == Join(parts, '.') && forall i :: 0 <= i < 4 ==> Octet(parts[i]) {
      var parts: seq<string> :| |parts| == 4 && host == Join(parts, '.') && forall i :: 0 <= i < 4 ==> Octet(parts[i]);
      forall i | 0 <= i < 4 ensures '.' !in parts[i] {
        OctetHasNoDot(parts[i]);
      }
      SplitUndoesJoin(parts, '.');
    }
  }

  ghost predicate Octet(s: string) {
    s != "" && AllDigits(s) && Number(s) <= 255 && (|s| > 1 ==> s[0] != '0')
  }

  lemma OctetIs(s: string)
    ensures ValidOctet(s) <==> Octet(s)
  {
    OctetExact(s);
  }

  lemma OctetHasNoDot(s: string)
    requires Octet(s)
    ensures '.' !in s
  {
    hide Number;
  }

  ghost predicate GoodLabel(part: string) {
    && 0 < |part| <= 63 && part[0] != '-' && part[|part| - 1] != '-'
    && forall c :: c in part ==> IsAlphanumeric(c) || c == '-'
  }

  lemma LabelIs(part: string)
    ensures ValidLabel(part) <==> GoodLabel(part)
    ensures GoodLabel(part) ==> '.' !in part
  {
    assert forall i :: 0 <= i < |part| ==> part[i] in part;
  }

  /** The labels of a name, with or without a final dot. */
  ghost predicate Spells(labels: seq<string>, host: string) {
    && labels != [] && (host == Join(labels, '.') || host == Join(labels, '.') + ".") && 0 < |Join(labels, '.')| <= 253
    && (forall i :: 0 <= i < |labels| ==> GoodLabel(labels[i])) && exists c :: c in labels[|labels| - 1] && !IsDigit(c)
  }

  function WithoutDot(host: string): string {
    if host != [] && host[|host| - 1] == '.' then host[..|host| - 1] else host
  }

  lemma {:induction false} DnsLabels(host: string)
    requires ValidDnsName(host)
    ensures var labels := Split(WithoutDot(host), '.');
            && 0 < |WithoutDot(host)| <= 253 && (forall part :: part in labels ==> GoodLabel(part))
            && exists c :: c in labels[|labels| - 1] && !IsDigit(c)
  {
    var name := if host != [] && host[|host| - 1] == '.' then host[..|host| - 1] else host;
    var labels := Split(name, '.');
    assert forall i :: 0 <= i < |labels| ==> ValidLabel(labels[i]);
    forall part | part in labels ensures GoodLabel(part) {
      var k :| 0 <= k < |labels| && labels[k] == part;
      LabelIs(labels[k]);
    }
    var last := labels[|labels| - 1];
    var i :| 0 <= i < |last| && !IsDigit(last[i]);
    assert last[i] in last;
  }

  lemma {:induction false} LabelsDns(host: string)
    requires var labels := Split(WithoutDot(host), '.');
             && 0 < |WithoutDot(host)| <= 253 && (forall part :: part in labels ==> GoodLabel(part))
             && exists c :: c in labels[|labels| - 1] && !IsDigit(c)
    ensures ValidDnsName(host)
  {
    hide GoodLabel;
    var name := if host != [] && host[|host| - 1] == '.' then host[..|host| - 1] else host;
    var labels := Split(name, '.');
    forall i | 0 <= i < |labels| ensures ValidLabel(labels[i]) {
      assert labels[i] in labels;
      LabelIs(labels[i]);
    }
    var last := labels[|labels| - 1];
    var c :| c in last && !IsDigit(c);
  }

  /** Labels of letters, digits and inner dashes, joined by dots, the last of them not a number. */
  lemma {:induction false} DnsExact(host: string)
    ensures ValidDnsName(host) <==> exists labels :: Spells(labels, host)
  {
    hide GoodLabel, Split, Join, ValidDnsName;
    var name := WithoutDot(host);
    JoinUndoesSplit(name, '.');
    if ValidDnsName(host) {
      DnsLabels(host);
      var labels := Split(name, '.');
      forall i | 0 <= i < |labels| ensures GoodLabel(labels[i]) {
        assert labels[i] in labels;
      }
      assert Spells(labels, host);
    }
    if exists labels :: Spells(labels, host) {
      var labels :| Spells(labels, host);
      forall i | 0 <= i < |labels| ensures '.' !in labels[i] {
        LabelIs(labels[i]);
      }
      SplitUndoesJoin(labels, '.');
      LastCharacter(labels);
      assert name == Join(labels, '.');
      LabelsDns(host);
    }
  }

  lemma {:induction false} LastCharacter(labels: seq<string>)
    requires labels != [] && forall i :: 0 <= i < |labels| ==> GoodLabel(labels[i])
    ensures var s := Join(labels, '.'); s != [] && s[|s| - 1] != '.'
    decreases |labels|
  {
    if |labels| == 1 {
      LabelIs(labels[0]);
    } else {
      LastCharacter(labels[1..]);
      assert Join(labels, '.') == labels[0] + ['.'] + Join(labels[1..], '.');
    }
  }
}
