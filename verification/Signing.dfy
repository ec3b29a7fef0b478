/** Producer signatures (audit/signing.py) and the worker's three-way answer (consumers/processor.py). */
module Signing {
  import opened Wrappers
  import Lines

  const VERSION := "v1"

  /** The keyed hash of a signing message under the signing secret. */
  type SigningMac = string -> string

  function SigningMessage(version: string, service: string, data: string): string {
    version + "\n" + service + "\n" + data
  }

  /** `sign_audit_event`; None when it raises. */
  function Sign(mac: SigningMac, service: string, data: string): Option<string> {
    if service == "" then None else Some(VERSION + ":" + mac(SigningMessage(VERSION, service, data)))
  }

  /** `str.partition(":")`: the text before the first colon and, if there is one, the text after it. */
  function Partition(s: string): (r: (string, Option<string>))
    ensures ':' !in r.0
    ensures r.1.Some? ==> s == r.0 + ":" + r.1.value
    ensures r.1.None? ==> s == r.0
  {
    if s == "" then ("", None)
    else if s[0] == ':' then ("", Some(s[1..]))
    else var (head, rest) := Partition(s[1..]); ([s[0]] + head, rest)
  }

  /** `verify_audit_event`. */
  predicate Verifies(mac: SigningMac, service: string, data: string, signature: string) {
    var (version, macHex) := Partition(signature);
    service != "" && macHex.Some? && version == VERSION && macHex.value == mac(SigningMessage(version, service, data))
  }

  /** `classify_event_integrity`. */
  function IntegrityStatus(mac: SigningMac, service: string, signature: Option<string>, data: string): string {
    if signature.None? || signature.value == "" then "unsigned"
    else if Verifies(mac, service, data, signature.value) then "valid"
    else "invalid"
  }

  /** "valid" is exactly what the signer produces for this service and these bytes, "unsigned" exactly what has no
      signature, and every other signature is "invalid". */
  lemma ValidIffSigned(mac: SigningMac, service: string, signature: Option<string>, data: string)
    ensures IntegrityStatus(mac, service, signature, data) == "unsigned" <==> signature.None? || signature.value == ""
    ensures IntegrityStatus(mac, service, signature, data) == "invalid" <==>
      signature.Some? && signature.value != "" && Sign(mac, service, data) != signature
    ensures IntegrityStatus(mac, service, signature, data) == "valid" <==>
      service != "" && signature == Some("v1:" + mac("v1\n" + service + "\n" + data))
  {
    assert |"valid"| == 5 && |"unsigned"| == 8 && |"invalid"| == 7;
    assert VERSION + "\n" == "v1\n" && VERSION + ":" == "v1:";
    assert SigningMessage(VERSION, service, data) == "v1\n" + service + "\n" + data;
    if signature.Some? {
      var (version, macHex) := Partition(signature.value);
      var signed := VERSION + ":" + mac(SigningMessage(VERSION, service, data));
      if signature.value == signed {
        assert ':' !in VERSION;
        var rest := if macHex.Some? then ":" + macHex.value else "";
        assert signature.value == version + rest;
        assert signed == VERSION + (":" + mac(SigningMessage(VERSION, service, data)));
        Lines.HeadsAgree(':', version, VERSION, rest, ":" + mac(SigningMessage(VERSION, service, data)));
        assert macHex.Some? && rest[1..] == macHex.value;
        assert rest[1..] == mac(SigningMessage(VERSION, service, data));
      }
    }
  }

  /** A signature cannot be moved to another service or other bytes: with a collision-free hash and
      service names on one line, one valid signature fits one pair. */
  lemma SignatureBindsServiceAndData(mac: SigningMac, s: string, d: string, s': string, d': string, signature: string)
    requires forall m, m' :: mac(m) == mac(m') ==> m == m'
    requires Lines.OneLine(s) && Lines.OneLine(s')
    requires Verifies(mac, s, d, signature) && Verifies(mac, s', d', signature)
    ensures s == s' && d == d'
  {
    assert SigningMessage(VERSION, s, d) == SigningMessage(VERSION, s', d');
    var p := VERSION + "\n";
    assert SigningMessage(VERSION, s, d)[|p|..] == s + ("\n" + d);
    assert SigningMessage(VERSION, s', d')[|p|..] == s' + ("\n" + d');
    Lines.HeadsAgree('\n', s, s', "\n" + d, "\n" + d');
    assert d == ("\n" + d)[1..] && d' == ("\n" + d')[1..];
  }
}
