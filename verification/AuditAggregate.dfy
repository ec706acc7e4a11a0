/** The auth-health roll-up over the users table. Rates are exact rationals. */
module AuditAggregate {
  import opened Collections
  import opened UserRepository

  function Share(numerator: int, denominator: int, empty: real): real {
    if denominator == 0 then empty else numerator as real / denominator as real
  }

  datatype Rates = Rates(loginSuccess: real, verifySuccess: real, mfaEnrolled: real)

  function LoggedIn(users: Table): set<string> {
    set id | id in users && users[id].lastLoginAt.Some?
  }

  function Verified(users: Table): set<string> {
    set id | id in users && users[id].emailVerified
  }

  function MfaEnrolled(users: Table): set<string> {
    set id | id in users && users[id].mfaEnabled
  }

  function ComputeRates(users: Table): Rates {
    Rates(Share(|LoggedIn(users)|, |users|, 1.0),
          Share(|Verified(users)|, |users|, 1.0),
          Share(|MfaEnrolled(users)|, |users|, 0.0))
  }

  predicate IsShare(rate: real) {
    0.0 <= rate <= 1.0
  }

  lemma {:induction false} QuotientBounds(x: real, y: real)
    requires 0.0 <= x <= y && 0.0 < y
    ensures 0.0 <= x / y <= 1.0 && (x / y == 1.0 <==> x == y) && (x / y == 0.0 <==> x == 0.0)
  {
    var q := x / y;
    assert q * y == x;
    assert q < 0.0 ==> q * y < 0.0;
    assert q > 1.0 ==> (q - 1.0) * y > 0.0;
  }

  lemma {:induction false} ShareOfPart(part: nat, whole: nat, empty: real)
    requires part <= whole && (empty == 0.0 || empty == 1.0)
    ensures IsShare(Share(part, whole, empty))
    ensures whole > 0 ==> (Share(part, whole, empty) == 1.0 <==> part == whole)
    ensures whole > 0 ==> (Share(part, whole, empty) == 0.0 <==> part == 0)
  {
    if whole > 0 {
      QuotientBounds(part as real, whole as real);
    }
  }

  /** Every rate is in 0..1, and reaches its ends exactly when all users, or none, qualify. */
  lemma {:induction false} RatesAreShares(users: Table)
    ensures var rates := ComputeRates(users);
            && IsShare(rates.loginSuccess) && IsShare(rates.verifySuccess) && IsShare(rates.mfaEnrolled)
            && (rates.loginSuccess == 1.0 <==> LoggedIn(users) == users.Keys)
            && (rates.verifySuccess == 1.0 <==> Verified(users) == users.Keys)
            && (rates.mfaEnrolled == 0.0 <==> MfaEnrolled(users) == {})
            && (users == map[] ==> rates == Rates(1.0, 1.0, 0.0))
            && (users != map[] ==>
                  && (rates.loginSuccess == 0.0 <==> LoggedIn(users) == {})
                  && (rates.verifySuccess == 0.0 <==> Verified(users) == {})
                  && (rates.mfaEnrolled == 1.0 <==> MfaEnrolled(users) == users.Keys))
  {
    assert |users| == |users.Keys|;
    SubsetSize(LoggedIn(users), users.Keys);
    SubsetSize(Verified(users), users.Keys);
    SubsetSize(MfaEnrolled(users), users.Keys);
    ShareOfPart(|LoggedIn(users)|, |users|, 1.0);
    ShareOfPart(|Verified(users)|, |users|, 1.0);
    ShareOfPart(|MfaEnrolled(users)|, |users|, 0.0);
  }

  /** A rate over `total` users once one of them went from `was` to `qualifies`. */
  function Moved(rate: real, total: nat, was: bool, qualifies: bool): real
    requires total > 0
  {
    if was == qualifies then rate else if qualifies then rate + 1.0 / total as real else rate - 1.0 / total as real
  }

  lemma {:induction false} ShareMoves(before: set<string>, after: set<string>, id: string, qualifies: bool, total: nat, empty: real)
    requires total > 0 && after == if qualifies then before + {id} else before - {id}
    ensures Share(|after|, total, empty) == Moved(Share(|before|, total, empty), total, id in before, qualifies)
  {
    if qualifies == (id in before) {
      assert after == before;
    } else {
      var step := if qualifies then 1.0 else -1.0;
      assert |after| as real == |before| as real + step;
      DividesOver(|before| as real, step, total as real);
    }
  }

  lemma {:induction false} DividesOver(x: real, step: real, y: real)
    requires y > 0.0 && (step == 1.0 || step == -1.0)
    ensures (x + step) / y == x / y + step / y
    ensures step / y == if step == 1.0 then 1.0 / y else -(1.0 / y)
  {
  }

  /**
   What a repository update does to the rates: a first login raises the login rate by one
   user's share, switching verification or MFA moves its own rate by that share, and every
   other rate, and every rate under any other update, stays where it was.
   */
  lemma {:induction false} UpdateMovesRates(tenants: set<string>, users: Table, op: Op)
    requires IsUpdate(op) && op.id in users
    ensures var before, after := ComputeRates(users), ComputeRates(Apply(tenants, users, op).0);
            var row, total := users[op.id], |users|;
            && total > 0
            && after.loginSuccess
               == Moved(before.loginSuccess, total, row.lastLoginAt.Some?, op.UpdateLastLogin? || row.lastLoginAt.Some?)
            && after.verifySuccess
               == Moved(before.verifySuccess, total, row.emailVerified,
                        if op.UpdateEmailVerified? then op.verified else row.emailVerified)
            && after.mfaEnrolled
               == Moved(before.mfaEnrolled, total, row.mfaEnabled, if op.UpdateMfa? then op.mfa.mfaEnabled else row.mfaEnabled)
  {
    UpdateIsWrite(tenants, users, op);
    var next := Written(users, op);
    assert next.Keys == users.Keys;
    assert |users| == |users.Keys| && |next| == |next.Keys|;
    assert |users| > 0 by {
      assert op.id in users.Keys;
    }
    QualifiersAfter(users, op);
    StandingAfter(users, op);
    ShareMoves(LoggedIn(users), LoggedIn(next), op.id, next[op.id].lastLoginAt.Some?, |users|, 1.0);
    ShareMoves(Verified(users), Verified(next), op.id, next[op.id].emailVerified, |users|, 1.0);
    ShareMoves(MfaEnrolled(users), MfaEnrolled(next), op.id, next[op.id].mfaEnabled, |users|, 0.0);
  }

  /** Only the updated user can start or stop to qualify. */
  lemma {:induction false} QualifiersAfter(users: Table, op: Op)
    requires IsUpdate(op) && op.id in users
    ensures var next := Written(users, op);
            && op.id in next
            && LoggedIn(next) == (if next[op.id].lastLoginAt.Some? then LoggedIn(users) + {op.id} else LoggedIn(users) - {op.id})
            && Verified(next) == (if next[op.id].emailVerified then Verified(users) + {op.id} else Verified(users) - {op.id})
            && MfaEnrolled(next) == (if next[op.id].mfaEnabled then MfaEnrolled(users) + {op.id} else MfaEnrolled(users) - {op.id})
  {
  }

  lemma {:induction false} StandingAfter(users: Table, op: Op)
    requires IsUpdate(op) && op.id in users
    ensures var row, next := users[op.id], Written(users, op);
            && op.id in next
            && (next[op.id].lastLoginAt.Some? <==> op.UpdateLastLogin? || row.lastLoginAt.Some?)
            && next[op.id].emailVerified == (if op.UpdateEmailVerified? then op.verified else row.emailVerified)
            && next[op.id].mfaEnabled == (if op.UpdateMfa? then op.mfa.mfaEnabled else row.mfaEnabled)
  {
  }
}
