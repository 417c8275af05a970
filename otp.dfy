/** One-time passwords: the records the `Otp` collection holds, how send-otp builds a
    code and its expiry, how verify-otp finds the latest record and how the records of
    one email are deleted. */
module Otp {
  import opened Js

  /** A document of the `Otp` collection; `createdAt` is the timestamp Mongoose adds.
      Times are milliseconds since the epoch. */
  datatype OtpRecord = OtpRecord(email: string, code: string, expiresAt: int, createdAt: int)

  /** The e-mail send-otp hands to the mail transport. */
  datatype Mail = Mail(to: string, subject: string, text: string)

  /** The integer `Math.floor(Math.random() * 900000)` picks. */
  type RandomChoice = k: int | 0 <= k < 900000

  /** Ten minutes, in milliseconds. */
  const LifetimeMs: int := 10 * 60 * 1000
  const CodeBase: int := 100000
  const MailSubject: string := "Your OTP Code"
  const MailLead: string := "Your OTP code is "
  const MailTail: string := ". It expires in 10 minutes."

  predicate IsDigit(c: char) {
    '0' <= c <= '9'
  }

  predicate AllDigits(s: string) {
    forall i | 0 <= i < |s| :: IsDigit(s[i])
  }

  function DigitChar(d: int): (c: char)
    requires 0 <= d < 10
    ensures IsDigit(c) && c as int - '0' as int == d
  {
    ('0' as int + d) as char
  }

  /** `n.toString()` for a non-negative integer: its decimal digits without leading zeros. */
  function DecimalString(n: nat): (s: string)
    ensures s != [] && AllDigits(s)
    ensures s[0] == '0' ==> n == 0
    decreases n
  {
    if n < 10 then [DigitChar(n)] else DecimalString(n / 10) + [DigitChar(n % 10)]
  }

  /** The number a string of decimal digits denotes; the reference for `DecimalString`. */
  function DigitsValue(s: string): nat
    requires AllDigits(s)
  {
    if s == [] then 0
    else DigitsValue(s[..|s| - 1]) * 10 + (s[|s| - 1] as int - '0' as int)
  }

  function Pow10(k: nat): (p: nat)
    ensures p >= 1
  {
    if k == 0 then 1 else 10 * Pow10(k - 1)
  }

  /** Reading the decimal string back gives the number. */
  lemma {:induction false} DecimalRoundTrip(n: nat)
    ensures DigitsValue(DecimalString(n)) == n
  {
    var s := DecimalString(n);
    if n >= 10 {
      DecimalRoundTrip(n / 10);
      assert s[..|s| - 1] == DecimalString(n / 10);
    }
  }

  /** A number with k digits has a k-character decimal string. */
  lemma {:induction false} DecimalLength(n: nat, k: nat)
    requires k >= 1 && Pow10(k - 1) <= n < Pow10(k)
    ensures |DecimalString(n)| == k
  {
    if k > 1 {
      assert Pow10(k - 1) == 10 * Pow10(k - 2);
      DecimalLength(n / 10, k - 1);
    }
  }

  /** A digit string of length k denotes a number below 10^k, and at least 10^(k-1)
      when it does not start with zero. */
  lemma {:induction false} DigitsBounds(s: string)
    requires AllDigits(s) && s != []
    ensures DigitsValue(s) < Pow10(|s|)
    ensures s[0] != '0' ==> Pow10(|s| - 1) <= DigitsValue(s)
  {
    var p := s[..|s| - 1];
    if p != [] {
      DigitsBounds(p);
      assert p[0] == s[0];
    }
  }

  /** A digit string without a leading zero is the decimal string of its value. */
  lemma {:induction false} CanonicalDigits(s: string)
    requires AllDigits(s) && s != [] && (s[0] != '0' || |s| == 1)
    ensures DecimalString(DigitsValue(s)) == s
  {
    var p := s[..|s| - 1];
    var d := s[|s| - 1] as int - '0' as int;
    var v := DigitsValue(s);
    if p == [] {
      assert DigitsValue(p) == 0;
      assert s == [DigitChar(d)];
    } else {
      DigitsBounds(p);
      assert p[0] == s[0];
      CanonicalDigits(p);
      assert v / 10 == DigitsValue(p) && v % 10 == d;
      assert s == p + [DigitChar(d)];
    }
  }

  /** `Math.floor(100000 + Math.random() * 900000).toString()`: always six digits, never
      a leading zero, and the number it spells is 100000 plus the random choice. */
  function GenerateCode(k: RandomChoice): (code: string)
    ensures |code| == 6 && AllDigits(code) && code[0] != '0'
    ensures DigitsValue(code) == CodeBase + k
  {
    var n := CodeBase + k;
    assert Pow10(5) == 100000 by {
      assert Pow10(2) == 100;
      assert Pow10(4) == 10000;
    }
    DecimalLength(n, 6);
    DecimalRoundTrip(n);
    DecimalString(n)
  }

  /** Every six-digit code without a leading zero is produced by some random choice. */
  lemma EveryCodeReachable(code: string)
    requires |code| == 6 && AllDigits(code) && code[0] != '0'
    ensures exists k: RandomChoice :: GenerateCode(k) == code
  {
    DigitsBounds(code);
    var k: RandomChoice := DigitsValue(code) - CodeBase;
    CanonicalDigits(code);
    assert GenerateCode(k) == code;
  }

  /** `new Date(Date.now() + 10 * 60 * 1000)`. */
  function ExpiresAt(now: int): (t: int)
    ensures t - now == 600000
  {
    now + LifetimeMs
  }

  /** verify-otp's check `expiresAt.getTime() < new Date().getTime()`. */
  predicate Expired(rec: OtpRecord, now: int) {
    rec.expiresAt < now
  }

  /** Expiry is permanent: a record expired at one instant stays expired at every later
      one, and a record live at one instant was live at every earlier one. */
  lemma ExpiryIsPermanent(rec: OtpRecord, now: int, later: int)
    requires now <= later
    ensures Expired(rec, now) ==> Expired(rec, later)
    ensures !Expired(rec, later) ==> !Expired(rec, now)
  {
  }

  /** The record `Otp.create({ email, code, expiresAt })` stores at time `now`. */
  function Issue(email: string, k: RandomChoice, now: int): (rec: OtpRecord)
    ensures rec.email == email && rec.code == GenerateCode(k) && rec.createdAt == now
  {
    OtpRecord(email, GenerateCode(k), ExpiresAt(now), now)
  }

  /** An issued code stays valid up to and including the instant ten minutes later,
      and is expired from the next millisecond on. */
  lemma IssuedValidForTenMinutes(email: string, k: RandomChoice, now: int, t: int)
    ensures !Expired(Issue(email, k, now), t) <==> t <= now + 600000
  {
  }

  /** The mail sent with a fresh code. */
  function OtpMail(email: string, code: string): (m: Mail)
    ensures m.to == email && m.subject == MailSubject && MailLead <= m.text
    ensures |MailLead| <= |m.text| - |code| && m.text[|MailLead|..|MailLead| + |code|] == code
  {
    Mail(email, MailSubject, MailLead + code + MailTail)
  }

  /** `Otp.findOne({ email }).sort({ createdAt: -1 })`: a record for the email with the
      greatest creation time, None when the email has no record. Among records created
      at the same instant the later-stored one is taken; the database leaves this open. */
  function Latest(otps: seq<OtpRecord>, email: string): (r: Option<OtpRecord>)
    ensures r.None? <==> forall i | 0 <= i < |otps| :: otps[i].email != email
    ensures r.Some? ==> r.value in otps && r.value.email == email
    ensures r.Some? ==> forall i | 0 <= i < |otps| && otps[i].email == email ::
      otps[i].createdAt <= r.value.createdAt
    decreases |otps|
  {
    if otps == [] then None
    else
      var last := otps[|otps| - 1];
      var earlier := Latest(otps[..|otps| - 1], email);
      if last.email != email then earlier
      else if earlier.Some? && earlier.value.createdAt > last.createdAt then earlier
      else Some(last)
  }

  /** A record created after every other record of its email is the one found. */
  lemma LatestIsFreshest(otps: seq<OtpRecord>, rec: OtpRecord)
    requires forall i | 0 <= i < |otps| && otps[i].email == rec.email :: otps[i].createdAt < rec.createdAt
    ensures Latest(otps + [rec], rec.email) == Some(rec)
  {
    assert (otps + [rec])[..|otps|] == otps;
  }

  /** The records of one email, in stored order. */
  function RecordsOf(otps: seq<OtpRecord>, email: string): (r: seq<OtpRecord>)
    ensures forall i | 0 <= i < |r| :: r[i].email == email
  {
    if otps == [] then []
    else
      var rest := RecordsOf(otps[..|otps| - 1], email);
      if otps[|otps| - 1].email == email then rest + [otps[|otps| - 1]] else rest
  }

  /** `Otp.deleteMany({ email })`. */
  function DeleteMany(otps: seq<OtpRecord>, email: string): (r: seq<OtpRecord>)
    ensures |r| <= |otps|
    ensures forall i | 0 <= i < |r| :: r[i].email != email && r[i] in otps
  {
    if otps == [] then []
    else
      var rest := DeleteMany(otps[..|otps| - 1], email);
      if otps[|otps| - 1].email == email then rest else rest + [otps[|otps| - 1]]
  }

  /** Deleting one email's records leaves the records of every other email as they were,
      in the same order, and leaves none of the deleted email. */
  lemma {:induction false} DeleteManyKeepsOthers(otps: seq<OtpRecord>, email: string, other: string)
    ensures RecordsOf(DeleteMany(otps, email), email) == []
    ensures other != email ==> RecordsOf(DeleteMany(otps, email), other) == RecordsOf(otps, other)
  {
    if otps != [] {
      var init := otps[..|otps| - 1];
      var last := otps[|otps| - 1];
      DeleteManyKeepsOthers(init, email, other);
      if last.email != email {
        var d := DeleteMany(init, email);
        assert (d + [last])[..|d|] == d;
      }
    }
  }

  /** After the deletion no record of the email is found any more. */
  lemma NothingLatestAfterDelete(otps: seq<OtpRecord>, email: string)
    ensures Latest(DeleteMany(otps, email), email) == None
  {
  }
}
