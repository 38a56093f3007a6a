/**
 * The SMS sent to data collectors when their supervisor is replaced: the
 * template's placeholders are substituted with the new supervisor's name and
 * phone number, and the message goes out by e-mail-to-SMS or by the IoT hub.
 */
module ReplaceSupervisorSms {
  import opened Common
  import opened Domain

  const SupervisorNamePlaceholder: string := "{{supervisorName}}"
  const PhoneNumberPlaceholder: string := "{{phoneNumber}}"

  /** The SMS gateway configured for a national society. */
  datatype GatewaySetting = GatewaySetting(nationalSocietyId: nat, iotHubDeviceName: Option<string>, languageCode: string)

  /** An SMS handed to one of the two sending channels. */
  datatype OutgoingSms =
    | EmailToSms(gateway: GatewaySetting, phoneNumbers: seq<string>, message: string)
    | IotHubSms(deviceName: string, phoneNumbers: seq<string>, message: string)

  /** `pat` occurs in `t` at position `i`. */
  predicate OccursAt(t: string, pat: string, i: nat)
  {
    i + |pat| <= |t| && t[i..i + |pat|] == pat
  }

  /** `pat` occurs nowhere in `t`. */
  ghost predicate Free(t: string, pat: string)
  {
    forall i: nat :: !OccursAt(t, pat, i)
  }

  /** No character of `a` occurs in `b`. */
  predicate Disjoint(a: string, b: string)
  {
    forall c :: c in a ==> c !in b
  }

  /**
   * Ordinal replacement of every occurrence of `pat`, scanning from the left
   * and resuming after each replaced occurrence. A replacement as long as the
   * pattern keeps the length.
   */
  function Replace(s: string, pat: string, rep: string): (r: string)
    requires |pat| > 0
    ensures |rep| == |pat| ==> |r| == |s|
    decreases |s|
  {
    if |s| == 0 then []
    else if |pat| <= |s| && s[..|pat|] == pat then rep + Replace(s[|pat|..], pat, rep)
    else [s[0]] + Replace(s[1..], pat, rep)
  }

  /** Every character of the result comes from the text or from the replacement. */
  lemma {:induction false} ReplaceCharacters(s: string, pat: string, rep: string)
    requires |pat| > 0
    ensures forall c :: c in Replace(s, pat, rep) ==> c in s || c in rep
    decreases |s|
  {
    if |s| > 0 {
      if |pat| <= |s| && s[..|pat|] == pat {
        ReplaceCharacters(s[|pat|..], pat, rep);
      } else {
        ReplaceCharacters(s[1..], pat, rep);
      }
    }
  }

  /** A text without the pattern is left as it is. */
  lemma {:induction false} ReplaceWithoutPattern(s: string, pat: string, rep: string)
    requires |pat| > 0 && Free(s, pat)
    ensures Replace(s, pat, rep) == s
  {
    if |s| > 0 {
      assert !OccursAt(s, pat, 0);
      FreeSuffix(s, pat, 1);
      ReplaceWithoutPattern(s[1..], pat, rep);
    }
  }

  lemma FreeSuffix(s: string, q: string, k: nat)
    requires Free(s, q) && k <= |s|
    ensures Free(s[k..], q)
  {
    forall i: nat ensures !OccursAt(s[k..], q, i) {
      assert !OccursAt(s, q, i + k);
      if i + |q| <= |s[k..]| {
        assert s[k..][i..i + |q|] == s[i + k..i + k + |q|];
      }
    }
  }

  /**
   * Up to the first character of the replacement text, the result is the
   * input unchanged: either one of its first `n` characters comes from the
   * replacement text, or they are the input's first `n` characters.
   */
  lemma {:induction false} ReplaceKeepsPrefix(s: string, pat: string, rep: string, n: nat)
    requires |pat| > 0 && |rep| > 0
    requires n <= |Replace(s, pat, rep)|
    ensures (exists k :: 0 <= k < n && Replace(s, pat, rep)[k] in rep) || (n <= |s| && Replace(s, pat, rep)[..n] == s[..n])
    decreases |s|
  {
    var r := Replace(s, pat, rep);
    if |s| == 0 || n == 0 {
    } else if |pat| <= |s| && s[..|pat|] == pat {
      assert r[0] == rep[0] && rep[0] in rep;
    } else {
      var r' := Replace(s[1..], pat, rep);
      assert r == [s[0]] + r';
      ReplaceKeepsPrefix(s[1..], pat, rep, n - 1);
      if exists k :: 0 <= k < n - 1 && r'[k] in rep {
        var k :| 0 <= k < n - 1 && r'[k] in rep;
        assert r[k + 1] == r'[k];
      } else {
        assert r[..n] == [s[0]] + r'[..n - 1];
        assert s[..n] == [s[0]] + s[1..][..n - 1];
      }
    }
  }

  /** A text shorter than the pattern is left as it is. */
  lemma {:induction false} ReplaceShort(s: string, pat: string, rep: string)
    requires 0 < |pat| && |s| < |pat|
    ensures Replace(s, pat, rep) == s
  {
    if |s| > 0 {
      ReplaceShort(s[1..], pat, rep);
    }
  }

  /** Putting a text that shares no character with `q` in front keeps `q` absent. */
  lemma FreeAfterReplacement(rep: string, r: string, q: string)
    requires |q| > 0 && Disjoint(rep, q) && Free(r, q)
    ensures Free(rep + r, q)
  {
    var t := rep + r;
    forall i: nat ensures !OccursAt(t, q, i) {
      if i + |q| > |t| {
      } else if i < |rep| {
        assert t[i] == rep[i] && rep[i] in rep;
        assert t[i..i + |q|][0] == t[i] && t[i] !in q && q[0] in q;
      } else {
        assert t[i..i + |q|] == r[i - |rep|..i - |rep| + |q|];
        assert !OccursAt(r, q, i - |rep|);
      }
    }
  }

  /** A character in front of a text without `q` creates none when `q` does not start at it. */
  lemma FreeAfterKeptChar(c: char, r: string, q: string)
    requires |q| > 0 && Free(r, q)
    requires |q| <= 1 + |r| ==> ([c] + r)[..|q|] != q
    ensures Free([c] + r, q)
  {
    var t := [c] + r;
    forall i: nat ensures !OccursAt(t, q, i) {
      if i + |q| > |t| {
      } else if i == 0 {
      } else {
        assert t[i..i + |q|] == r[i - 1..i - 1 + |q|];
        assert !OccursAt(r, q, i - 1);
      }
    }
  }

  lemma ReplaceKeptChar(s: string, pat: string, rep: string)
    requires |pat| > 0 && |s| > 0 && !(|pat| <= |s| && s[..|pat|] == pat)
    ensures Replace(s, pat, rep) == [s[0]] + Replace(s[1..], pat, rep)
  {
  }

  lemma FirstNotCreated(s: string, r': string, pat: string, rep: string, q: string)
    requires |pat| > 0 && |rep| > 0 && |q| > 0 && |s| > 0 && Disjoint(rep, q)
    requires r' == Replace(s[1..], pat, rep)
    requires !OccursAt(s, q, 0)
    requires |q| <= 1 + |r'|
    ensures ([s[0]] + r')[..|q|] != q
  {
    var r := [s[0]] + r';
    var m := |q| - 1;
    ReplaceKeepsPrefix(s[1..], pat, rep, m);
    if exists k :: 0 <= k < m && r'[k] in rep {
      var k :| 0 <= k < m && r'[k] in rep;
      assert r[..|q|][k + 1] == r'[k] && r'[k] !in q && q[k + 1] in q;
    } else {
      assert r[..|q|] == [s[0]] + r'[..m];
      assert s[..|q|] == [s[0]] + s[1..][..m];
    }
  }

  /**
   * After replacing `pat` by a non-empty text that shares no character with
   * `q`, the result contains no `q` when `q` is `pat` itself or was absent
   * before.
   */
  lemma {:induction false} ReplaceLeavesNoOccurrence(s: string, pat: string, rep: string, q: string)
    requires |pat| > 0 && |rep| > 0 && |q| > 0
    requires Disjoint(rep, q)
    requires q == pat || Free(s, q)
    ensures Free(Replace(s, pat, rep), q)
    decreases |s|
  {
    if |s| == 0 {
    } else if |pat| <= |s| && s[..|pat|] == pat {
      if q != pat { FreeSuffix(s, q, |pat|); }
      ReplaceLeavesNoOccurrence(s[|pat|..], pat, rep, q);
      FreeAfterReplacement(rep, Replace(s[|pat|..], pat, rep), q);
    } else {
      if q != pat { FreeSuffix(s, q, 1); }
      ReplaceLeavesNoOccurrence(s[1..], pat, rep, q);
      if q == pat {
        assert !OccursAt(s, q, 0);
      }
      var r' := Replace(s[1..], pat, rep);
      ReplaceKeptChar(s, pat, rep);
      if |q| <= 1 + |r'| {
        FirstNotCreated(s, r', pat, rep, q);
      }
      FreeAfterKeptChar(s[0], r', q);
    }
  }

  /** A prefix at none of whose positions the pattern starts is kept as it is. */
  lemma {:induction false} ReplaceKeepsHead(a: string, t: string, pat: string, rep: string)
    requires |pat| > 0
    requires forall k :: 0 <= k < |a| ==> !OccursAt(a + t, pat, k)
    ensures Replace(a + t, pat, rep) == a + Replace(t, pat, rep)
    decreases |a|
  {
    if a != [] {
      var s := a + t;
      assert !OccursAt(s, pat, 0);
      ReplaceKeptChar(s, pat, rep);
      assert s[1..] == a[1..] + t;
      NoOccurrenceInTail(a, t, pat);
      ReplaceKeepsHead(a[1..], t, pat, rep);
      assert a == [a[0]] + a[1..];
    } else {
      assert a + t == t;
    }
  }

  lemma NoOccurrenceInTail(a: string, t: string, pat: string)
    requires a != [] && |pat| > 0
    requires forall k :: 0 <= k < |a| ==> !OccursAt(a + t, pat, k)
    ensures forall k :: 0 <= k < |a[1..]| ==> !OccursAt(a[1..] + t, pat, k)
  {
    var s := a + t;
    forall k | 0 <= k < |a[1..]| ensures !OccursAt(a[1..] + t, pat, k) {
      assert !OccursAt(s, pat, k + 1);
      if k + |pat| <= |s| - 1 {
        assert (a[1..] + t)[k..k + |pat|] == s[k + 1..k + 1 + |pat|];
      }
    }
  }

  /**
   * Without the disjointness condition a substitution can rebuild the
   * placeholder from the text around it: "{{super" + placeholder + "Name}}"
   * with the placeholder replaced by "visor" is the placeholder again.
   */
  lemma ReplaceCanRecreatePlaceholder()
    ensures OccursAt("{{super" + SupervisorNamePlaceholder + "Name}}", SupervisorNamePlaceholder, 7)
    ensures Replace("{{super" + SupervisorNamePlaceholder + "Name}}", SupervisorNamePlaceholder, "visor") == SupervisorNamePlaceholder
  {
    var a, p, b := "{{super", SupervisorNamePlaceholder, "Name}}";
    assert (a + p + b)[7..7 + |p|] == p;
    NoPlaceholderInHead();
    assert a + "visor" + b == p;
    ReplaceAround(a, p, b, "visor");
  }

  /**
   * When the pattern starts nowhere in the text before it and the text after
   * it is shorter than the pattern, only the pattern itself is replaced.
   */
  lemma ReplaceAround(a: string, p: string, b: string, rep: string)
    requires |p| > 0 && |b| < |p|
    requires forall k :: 0 <= k < |a| ==> !OccursAt(a + (p + b), p, k)
    ensures Replace(a + p + b, p, rep) == a + rep + b
  {
    ReplaceKeepsHead(a, p + b, p, rep);
    ReplaceAtStart(p, b, rep);
    ReplaceShort(b, p, rep);
    assert a + p + b == a + (p + b);
    assert a + (rep + b) == a + rep + b;
  }

  /** An occurrence at the start is replaced and the scan resumes after it. */
  lemma ReplaceAtStart(p: string, b: string, rep: string)
    requires |p| > 0
    ensures Replace(p + b, p, rep) == rep + Replace(b, p, rep)
  {
    assert (p + b)[..|p|] == p && (p + b)[|p|..] == b;
  }

  lemma NoPlaceholderInHead()
    ensures forall k :: 0 <= k < 7 ==> !OccursAt("{{super" + (SupervisorNamePlaceholder + "Name}}"), SupervisorNamePlaceholder, k)
  {
    var s, p := "{{super" + (SupervisorNamePlaceholder + "Name}}"), SupervisorNamePlaceholder;
    forall k | 0 <= k < 7 ensures !OccursAt(s, p, k) {
      if k == 0 { assert s[7] == '{' && p[7] == 'v'; }
      if k == 1 { assert s[2] == 's' && p[1] == '{'; }
      if k == 2 { assert s[2] == 's' && p[0] == '{'; }
      if k == 3 { assert s[3] == 'u' && p[0] == '{'; }
      if k == 4 { assert s[4] == 'p' && p[0] == '{'; }
      if k == 5 { assert s[5] == 'e' && p[0] == '{'; }
      if k == 6 { assert s[6] == 'r' && p[0] == '{'; }
    }
  }

  /**
   * The message text: the template with both placeholders substituted, name
   * first. Every character comes from the template, the name or the phone
   * number, and a template without placeholders is sent as it is.
   */
  function ReplaceSupervisorMessage(template: string, supervisorName: string, supervisorPhone: string): (msg: string)
    ensures forall c :: c in msg ==> c in template || c in supervisorName || c in supervisorPhone
    ensures Free(template, SupervisorNamePlaceholder) && Free(template, PhoneNumberPlaceholder) ==> msg == template
  {
    TemplateWithoutPlaceholders(template, supervisorName, supervisorPhone);
    ReplaceCharacters(template, SupervisorNamePlaceholder, supervisorName);
    ReplaceCharacters(Replace(template, SupervisorNamePlaceholder, supervisorName), PhoneNumberPlaceholder, supervisorPhone);
    Replace(Replace(template, SupervisorNamePlaceholder, supervisorName), PhoneNumberPlaceholder, supervisorPhone)
  }

  lemma TemplateWithoutPlaceholders(template: string, supervisorName: string, supervisorPhone: string)
    ensures Free(template, SupervisorNamePlaceholder) && Free(template, PhoneNumberPlaceholder) ==>
            Replace(Replace(template, SupervisorNamePlaceholder, supervisorName), PhoneNumberPlaceholder, supervisorPhone) == template
  {
    if Free(template, SupervisorNamePlaceholder) && Free(template, PhoneNumberPlaceholder) {
      ReplaceWithoutPattern(template, SupervisorNamePlaceholder, supervisorName);
      ReplaceWithoutPattern(template, PhoneNumberPlaceholder, supervisorPhone);
    }
  }

  /**
   * A template seen as its parts: literal text and the two placeholders. Every
   * template has such a reading; the one that matters below has no '{' in any
   * literal part, so that each '{' of the template opens a placeholder.
   */
  datatype Piece = Text(text: string) | NameSlot | PhoneSlot

  function Render(ps: seq<Piece>): string
  {
    if ps == [] then []
    else
      (match ps[0]
         case Text(t) => t
         case NameSlot => SupervisorNamePlaceholder
         case PhoneSlot => PhoneNumberPlaceholder) + Render(ps[1..])
  }

  /** The pieces with every name placeholder turned into the given name. */
  function FillName(ps: seq<Piece>, name: string): (r: seq<Piece>)
    ensures |r| == |ps|
    ensures forall i :: 0 <= i < |ps| ==> r[i] == if ps[i].NameSlot? then Text(name) else ps[i]
  {
    if ps == [] then [] else [if ps[0].NameSlot? then Text(name) else ps[0]] + FillName(ps[1..], name)
  }

  /** The pieces with every phone number placeholder turned into the given number. */
  function FillPhone(ps: seq<Piece>, phone: string): (r: seq<Piece>)
    ensures |r| == |ps|
    ensures forall i :: 0 <= i < |ps| ==> r[i] == if ps[i].PhoneSlot? then Text(phone) else ps[i]
  {
    if ps == [] then [] else [if ps[0].PhoneSlot? then Text(phone) else ps[0]] + FillPhone(ps[1..], phone)
  }

  /** No literal part holds an opening brace. */
  predicate BraceFreeText(ps: seq<Piece>)
  {
    forall i :: 0 <= i < |ps| && ps[i].Text? ==> '{' !in ps[i].text
  }

  /** One placeholder never starts inside the other, whatever follows it. */
  lemma OtherPlaceholderKept(p: string, q: string, t: string, rep: string)
    requires (p == SupervisorNamePlaceholder && q == PhoneNumberPlaceholder) || (p == PhoneNumberPlaceholder && q == SupervisorNamePlaceholder)
    ensures Replace(p + t, q, rep) == p + Replace(t, q, rep)
  {
    assert p[1] == '{' && p[2] != '{' && p[2] != q[2] && q[0] == '{' && q[1] == '{';
    assert forall k :: 2 <= k < |p| ==> p[k] != '{';
    forall k | 0 <= k < |p| ensures !OccursAt(p + t, q, k) {
      var s := p + t;
      if k + |q| <= |s| {
        var w := s[k..k + |q|];
        if k == 0 {
          assert w[2] == s[2] == p[2];
        } else if k == 1 {
          assert w[1] == s[2] == p[2];
        } else {
          assert w[0] == s[k] == p[k];
        }
      }
    }
    ReplaceKeepsHead(p, t, q, rep);
  }

  /** A literal part without '{' never holds the start of a placeholder. */
  lemma TextKept(t: string, rest: string, q: string, rep: string)
    requires |q| > 0 && q[0] == '{' && '{' !in t
    ensures Replace(t + rest, q, rep) == t + Replace(rest, q, rep)
  {
    forall k | 0 <= k < |t| ensures !OccursAt(t + rest, q, k) {
      if k + |q| <= |t + rest| {
        assert (t + rest)[k..k + |q|][0] == t[k];
      }
    }
    ReplaceKeepsHead(t, rest, q, rep);
  }

  /** Substituting the name in the rendered template fills exactly its name placeholders. */
  lemma {:induction false} ReplaceNameInPieces(ps: seq<Piece>, name: string)
    requires BraceFreeText(ps)
    ensures Replace(Render(ps), SupervisorNamePlaceholder, name) == Render(FillName(ps, name))
  {
    if ps != [] {
      var rest := Render(ps[1..]);
      ReplaceNameInPieces(ps[1..], name);
      assert FillName(ps, name)[1..] == FillName(ps[1..], name);
      match ps[0]
      case Text(t) => TextKept(t, rest, SupervisorNamePlaceholder, name);
      case NameSlot => ReplaceAtStart(SupervisorNamePlaceholder, rest, name);
      case PhoneSlot => OtherPlaceholderKept(PhoneNumberPlaceholder, SupervisorNamePlaceholder, rest, name);
    }
  }

  /** Substituting the phone number in the rendered template fills exactly its phone placeholders. */
  lemma {:induction false} ReplacePhoneInPieces(ps: seq<Piece>, phone: string)
    requires BraceFreeText(ps)
    ensures Replace(Render(ps), PhoneNumberPlaceholder, phone) == Render(FillPhone(ps, phone))
  {
    if ps != [] {
      var rest := Render(ps[1..]);
      ReplacePhoneInPieces(ps[1..], phone);
      assert FillPhone(ps, phone)[1..] == FillPhone(ps[1..], phone);
      match ps[0]
      case Text(t) => TextKept(t, rest, PhoneNumberPlaceholder, phone);
      case NameSlot => OtherPlaceholderKept(SupervisorNamePlaceholder, PhoneNumberPlaceholder, rest, phone);
      case PhoneSlot => ReplaceAtStart(PhoneNumberPlaceholder, rest, phone);
    }
  }

  /** Pieces that are all literal and free of '{' render to a text free of '{'. */
  lemma {:induction false} RenderWithoutBrace(ps: seq<Piece>)
    requires BraceFreeText(ps) && forall i :: 0 <= i < |ps| ==> ps[i].Text?
    ensures '{' !in Render(ps)
  {
    if ps != [] {
      RenderWithoutBrace(ps[1..]);
      assert Render(ps) == ps[0].text + Render(ps[1..]);
    }
  }

  /** A text without '{' holds neither placeholder. */
  lemma NoBraceNoPlaceholder(t: string, q: string)
    requires '{' !in t && |q| > 0 && q[0] == '{'
    ensures Free(t, q)
  {
    forall i: nat ensures !OccursAt(t, q, i) {
      if i + |q| <= |t| {
        assert t[i..i + |q|][0] == t[i];
      }
    }
  }

  /**
   * When every '{' of the template opens a placeholder and neither the name
   * nor the phone number holds a '{', the message is the template with each
   * placeholder filled by its value, and it contains neither placeholder.
   */
  lemma MessageHasNoPlaceholders(ps: seq<Piece>, template: string, supervisorName: string, supervisorPhone: string)
    requires template == Render(ps) && BraceFreeText(ps)
    requires '{' !in supervisorName && '{' !in supervisorPhone
    ensures ReplaceSupervisorMessage(template, supervisorName, supervisorPhone)
            == Render(FillPhone(FillName(ps, supervisorName), supervisorPhone))
    ensures Free(ReplaceSupervisorMessage(template, supervisorName, supervisorPhone), SupervisorNamePlaceholder)
    ensures Free(ReplaceSupervisorMessage(template, supervisorName, supervisorPhone), PhoneNumberPlaceholder)
  {
    var named := FillName(ps, supervisorName);
    var filled := FillPhone(named, supervisorPhone);
    ReplaceNameInPieces(ps, supervisorName);
    ReplacePhoneInPieces(named, supervisorPhone);
    RenderWithoutBrace(filled);
    assert SupervisorNamePlaceholder[0] == '{' && PhoneNumberPlaceholder[0] == '{';
    NoBraceNoPlaceholder(Render(filled), SupervisorNamePlaceholder);
    NoBraceNoPlaceholder(Render(filled), PhoneNumberPlaceholder);
  }

  /**
   * When the supervisor's name and phone number are non-empty and share no
   * character with the placeholders they must not recreate, the message
   * contains neither placeholder, whatever the template. The condition rules
   * out nearly every real name (any with one of the letters of
   * "supervisorName"); `MessageHasNoPlaceholders` covers realistic names.
   */
  lemma DisjointValuesLeaveNoPlaceholders(template: string, supervisorName: string, supervisorPhone: string)
    requires |supervisorName| > 0 && |supervisorPhone| > 0
    requires Disjoint(supervisorName, SupervisorNamePlaceholder)
    requires Disjoint(supervisorPhone, SupervisorNamePlaceholder) && Disjoint(supervisorPhone, PhoneNumberPlaceholder)
    ensures Free(ReplaceSupervisorMessage(template, supervisorName, supervisorPhone), SupervisorNamePlaceholder)
    ensures Free(ReplaceSupervisorMessage(template, supervisorName, supervisorPhone), PhoneNumberPlaceholder)
  {
    var first := Replace(template, SupervisorNamePlaceholder, supervisorName);
    ReplaceLeavesNoOccurrence(template, SupervisorNamePlaceholder, supervisorName, SupervisorNamePlaceholder);
    ReplaceLeavesNoOccurrence(first, PhoneNumberPlaceholder, supervisorPhone, SupervisorNamePlaceholder);
    ReplaceLeavesNoOccurrence(first, PhoneNumberPlaceholder, supervisorPhone, PhoneNumberPlaceholder);
  }

  /**
   * Builds the SMS for the collectors' phone numbers: the message is the
   * template with the new supervisor's name and phone number substituted, and
   * it goes by e-mail-to-SMS exactly when the gateway has no IoT hub device.
   */
  method SendReplaceSupervisorSms(gateway: GatewaySetting, phoneNumbers: seq<string>, supervisor: Supervisor, template: string)
    returns (sms: OutgoingSms)
    ensures sms.message == ReplaceSupervisorMessage(template, supervisor.name, supervisor.phoneNumber)
    ensures sms.phoneNumbers == phoneNumbers
    ensures sms.EmailToSms? <==> IsNullOrEmpty(gateway.iotHubDeviceName)
    ensures sms.EmailToSms? ==> sms.gateway == gateway
    ensures sms.IotHubSms? ==> gateway.iotHubDeviceName == Some(sms.deviceName) && sms.deviceName != ""
  {
    var message := Replace(template, SupervisorNamePlaceholder, supervisor.name);
    message := Replace(message, PhoneNumberPlaceholder, supervisor.phoneNumber);
    if IsNullOrEmpty(gateway.iotHubDeviceName) {
      sms := EmailToSms(gateway, phoneNumbers, message);
    } else {
      sms := IotHubSms(gateway.iotHubDeviceName.value, phoneNumbers, message);
    }
  }
}
