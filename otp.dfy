/** The OTP challenge carried by a `pending_users` row: issuing a code and
    checking a supplied one. The pure functions say what a call does to a
    row; the class `PendingUser` is the mapped row object whose methods
    update its fields in place. */
module Otp {
  import opened Records

  datatype OtpReason = Valid | Invalid | Expired

  /** The outcome of `verify_otp`: the code is compared first, so a wrong
      code is `Invalid` at any time; a right code is `Expired` strictly after
      the expiry and `Valid` up to and including it. */
  function CheckOtp(code: string, expiry: int, supplied: string, now: int): (r: OtpReason)
    ensures r == Invalid <==> supplied != code
    ensures r == Expired <==> supplied == code && now > expiry
    ensures r == Valid <==> supplied == code && now <= expiry
  {
    if code != supplied then Invalid
    else if now > expiry then Expired
    else Valid
  }

  /** The row after `generate_otp(code)` at time `now`: the new code, an
      expiry ten minutes ahead, no failed attempts, every other column kept. */
  function Issued(row: PendingRow, code: string, now: int): (r: PendingRow)
    ensures r.otpCode == code && r.otpExpiry == now + OtpLifetime && r.otpAttempts == 0
    ensures r.(otpCode := row.otpCode, otpExpiry := row.otpExpiry, otpAttempts := row.otpAttempts) == row
  {
    row.(otpCode := code, otpExpiry := now + OtpLifetime, otpAttempts := 0)
  }

  /** The row after `verify_otp(supplied)`: one more failed attempt exactly
      when the code is wrong; nothing else changes. */
  function AfterCheck(row: PendingRow, supplied: string, now: int): (r: PendingRow)
    ensures CheckOtp(row.otpCode, row.otpExpiry, supplied, now) == Invalid ==> r.otpAttempts == row.otpAttempts + 1
    ensures CheckOtp(row.otpCode, row.otpExpiry, supplied, now) != Invalid ==> r == row
    ensures r.(otpAttempts := row.otpAttempts) == row
  {
    if row.otpCode != supplied then row.(otpAttempts := row.otpAttempts + 1) else row
  }

  /** A mapped `pending_users` row. */
  class PendingUser {
    const email: Email
    var passwordHash: PasswordHash
    var fullName: string
    var role: Role
    var gender: Option<Gender>
    var avatar: Option<string>
    var regData: RegData
    var otpCode: string
    var otpExpiry: int
    var otpAttempts: int
    var createdAt: int
    var updatedAt: int

    /** The row's column values. */
    function Row(): PendingRow
      reads this
    {
      PendingRow(email, passwordHash, fullName, role, gender, avatar, regData,
                 otpCode, otpExpiry, otpAttempts, createdAt, updatedAt)
    }

    /** A new row with the given columns (`PendingUser(...)`). */
    constructor (row: PendingRow)
      ensures Row() == row
    {
      email := row.email;
      passwordHash := row.passwordHash;
      fullName := row.fullName;
      role := row.role;
      gender := row.gender;
      avatar := row.avatar;
      regData := row.regData;
      otpCode := row.otpCode;
      otpExpiry := row.otpExpiry;
      otpAttempts := row.otpAttempts;
      createdAt := row.createdAt;
      updatedAt := row.updatedAt;
    }

    /** `generate_otp`: stores the drawn `code`, sets the expiry ten minutes
        after `now`, resets the attempt counter, and returns the code. */
    method GenerateOtp(code: string, now: int) returns (issued: string)
      modifies this
      ensures issued == code
      ensures Row() == Issued(old(Row()), code, now)
    {
      otpCode := code;
      otpExpiry := now + OtpLifetime;
      otpAttempts := 0;
      issued := otpCode;
    }

    /** `verify_otp`: a wrong code counts one more failed attempt and is
        `Invalid`; a right code past the expiry is `Expired`; else `Valid`. */
    method VerifyOtp(supplied: string, now: int) returns (ok: bool, reason: OtpReason)
      modifies this
      ensures reason == CheckOtp(old(otpCode), old(otpExpiry), supplied, now)
      ensures ok <==> reason == Valid
      ensures Row() == AfterCheck(old(Row()), supplied, now)
    {
      if otpCode != supplied {
        otpAttempts := otpAttempts + 1;
        return false, Invalid;
      }
      if now > otpExpiry {
        return false, Expired;
      }
      return true, Valid;
    }
  }
}
