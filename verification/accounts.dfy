/**
  The account manager: the four state transitions the command handlers
  perform on the store. Each is a pure function from the store before the
  command to the store after it; identifiers `nanoid()` would draw and the
  timestamp `new Date()` would read are parameters.
 */
module Accounts {
  import opened Wrappers
  import opened Ledger

  // ---------------------------------------------------------------------
  // initUser
  // ---------------------------------------------------------------------

  /**
    Makes sure the chat has an account: when the lookup fails, appends a new
    account with a zero balance, an empty history, no referrer and the code
    `freshId`; otherwise leaves the store as it is.
   */
  function InitUser(s: Store, chatId: ChatId, freshId: string): (r: Store)
    ensures Registered(r, chatId)
    ensures Registered(s, chatId) ==> r == s
    ensures s.users <= r.users && r.paiements == s.paiements
    ensures |r.users| == if Registered(s, chatId) then |s.users| else |s.users| + 1
    ensures !Registered(s, chatId) ==>
      var u := r.users[|s.users|];
      u.chatId == chatId && u.solde == 0 && u.id == freshId && u.historique == [] && u.parrain == None
  {
    if Lookup(s, chatId).Some? then s
    else
      var r := Store(s.users + [User(chatId, 0, freshId, [], None)], s.paiements);
      assert r.users[|s.users|].chatId == chatId;
      r
  }

  /** A second `initUser` for the same chat changes nothing, whatever id it draws. */
  lemma InitUserIdempotent(s: Store, chatId: ChatId, id1: string, id2: string)
    ensures InitUser(InitUser(s, chatId, id1), chatId, id2) == InitUser(s, chatId, id1)
  {
  }

  lemma InitUserExtends(s: Store, chatId: ChatId, freshId: string)
    ensures Extends(s, InitUser(s, chatId, freshId))
    ensures var r := InitUser(s, chatId, freshId);
      r.paiements == s.paiements && forall k :: 0 <= k < |s.users| ==> r.users[k] == s.users[k]
  {
    var r := InitUser(s, chatId, freshId);
    assert forall k :: 0 <= k < |s.users| ==> r.users[k] == s.users[k];
  }

  /** After `initUser`, exactly one account has the chat identifier, and lookups find it. */
  lemma InitUserUnique(s: Store, chatId: ChatId, freshId: string)
    requires ChatIdsDistinct(s)
    ensures var r := InitUser(s, chatId, freshId);
      && ChatIdsDistinct(r)
      && forall k :: 0 <= k < |r.users| && r.users[k].chatId == chatId ==> k == Index(r, chatId)
  {
    var r := InitUser(s, chatId, freshId);
    if !Registered(s, chatId) {
      forall k, m | 0 <= k < m < |r.users|
        ensures r.users[k].chatId != r.users[m].chatId
      {
        if m == |s.users| {
          assert r.users[k] == s.users[k];
        } else {
          assert r.users[k] == s.users[k] && r.users[m] == s.users[m];
        }
      }
    }
    forall k | 0 <= k < |r.users| && r.users[k].chatId == chatId
      ensures k == Index(r, chatId)
    {
      IndexUnique(r, chatId, k);
    }
  }

  /** With a code `nanoid()` has not drawn before, `initUser` keeps every invariant. */
  lemma InitUserPreservesValid(s: Store, chatId: ChatId, freshId: string)
    requires Valid(s)
    requires Registered(s, chatId) || !IsCode(s, freshId)
    ensures Valid(InitUser(s, chatId, freshId))
  {
    var r := InitUser(s, chatId, freshId);
    InitUserExtends(s, chatId, freshId);
    ExtendsKeepsKeys(s, r);
    if !Registered(s, chatId) {
      InitUserUnique(s, chatId, freshId);
      assert forall k :: 0 <= k < |s.users| ==> r.users[k] == s.users[k];
      forall k, m | 0 <= k < m < |r.users|
        ensures r.users[k].id != r.users[m].id
      {
        if m == |s.users| {
          assert s.users[k].id != freshId;
        }
      }
    }
  }

  // ---------------------------------------------------------------------
  // Referral (body of /start)
  // ---------------------------------------------------------------------

  /**
    The referral rule, stated independently of the lookups: a code was given,
    the account has no referrer yet, and some account owns the code. The
    account may own the code itself: self-referral is not rejected.
   */
  predicate ReferralTakesEffect(s: Store, chatId: ChatId, code: Option<string>)
    requires Registered(s, chatId)
  {
    Truthy(code) && !Truthy(Account(s, chatId).parrain) && IsCode(s, code.value)
  }

  /**
    Records the referrer of `chatId` and credits its owner with the bonus.
    The two updates are applied one after the other, so when the account is
    its own referrer it receives both.
   */
  function ApplyReferral(s: Store, chatId: ChatId, code: Option<string>): (r: Store)
    requires Registered(s, chatId)
    ensures r != s <==> ReferralTakesEffect(s, chatId, code)
    ensures r.paiements == s.paiements && |r.users| == |s.users|
    ensures ReferralTakesEffect(s, chatId, code) ==>
      var i := Index(s, chatId);
      var j := LookupCode(s, code.value).value;
      forall k :: 0 <= k < |s.users| ==>
        r.users[k] == s.users[k].(
          parrain := if k == i then code else s.users[k].parrain,
          solde := if k == j then s.users[k].solde + ReferralBonus else s.users[k].solde)
  {
    var i := Index(s, chatId);
    var user := s.users[i];
    if Truthy(code) && !Truthy(user.parrain) then
      match LookupCode(s, code.value)
      case None => s
      case Some(j) =>
        var linked := s.users[i := user.(parrain := code)];
        var r := Store(linked[j := linked[j].(solde := linked[j].solde + ReferralBonus)], s.paiements);
        assert r.users[i].parrain == code;
        r
    else s
  }

  lemma ReferralExtends(s: Store, chatId: ChatId, code: Option<string>)
    requires Registered(s, chatId)
    ensures Extends(s, ApplyReferral(s, chatId, code))
    ensures var r := ApplyReferral(s, chatId, code);
      r.paiements == s.paiements
      && forall k :: 0 <= k < |s.users| ==> r.users[k].historique == s.users[k].historique
  {
  }

  lemma ReferralPreservesValid(s: Store, chatId: ChatId, code: Option<string>)
    requires Valid(s) && Registered(s, chatId)
    ensures Valid(ApplyReferral(s, chatId, code))
  {
    var r := ApplyReferral(s, chatId, code);
    ReferralExtends(s, chatId, code);
    ExtendsKeepsKeys(s, r);
  }

  // ---------------------------------------------------------------------
  // Task grant (body of /taches)
  // ---------------------------------------------------------------------

  /**
    Folds one task issuance into the account: one `tache` entry appended to
    its history and the reward added to its balance; no other account and
    no payout changes.
   */
  function GrantTask(s: Store, chatId: ChatId, taskId: string): (r: Store)
    requires Registered(s, chatId)
    ensures r.paiements == s.paiements && |r.users| == |s.users|
    ensures var i := Index(s, chatId);
      && r.users[i].solde == s.users[i].solde + TaskReward
      && r.users[i].historique == s.users[i].historique + [Entry(TaskKind, taskId, TaskReward)]
      && r.users[i].chatId == chatId && r.users[i].id == s.users[i].id
      && r.users[i].parrain == s.users[i].parrain
      && forall k :: 0 <= k < |s.users| && k != i ==> r.users[k] == s.users[k]
  {
    var i := Index(s, chatId);
    var user := s.users[i];
    var entry := Entry(TaskKind, taskId, TaskReward);
    Store(s.users[i := user.(historique := user.historique + [entry], solde := user.solde + TaskReward)], s.paiements)
  }

  lemma GrantTaskExtends(s: Store, chatId: ChatId, taskId: string)
    requires Registered(s, chatId)
    ensures Extends(s, GrantTask(s, chatId, taskId))
    ensures var r := GrantTask(s, chatId, taskId);
      r.paiements == s.paiements
      && forall k :: 0 <= k < |s.users| && k != Index(s, chatId) ==> r.users[k] == s.users[k]
  {
  }

  lemma GrantTaskPreservesValid(s: Store, chatId: ChatId, taskId: string)
    requires Valid(s) && Registered(s, chatId)
    ensures Valid(GrantTask(s, chatId, taskId))
  {
    var r := GrantTask(s, chatId, taskId);
    GrantTaskExtends(s, chatId, taskId);
    ExtendsKeepsKeys(s, r);
  }

  // ---------------------------------------------------------------------
  // Withdrawal (body of /retirer)
  // ---------------------------------------------------------------------

  /** Store after a withdrawal attempt and the payout recorded, if any. */
  datatype Withdrawal = Withdrawal(store: Store, payout: Option<Payout>)

  /**
    Refuses balances under the minimum and changes nothing then; otherwise
    records a payout of the whole balance for the caller's chat and zeroes
    the balance, leaving every other account as it was.
   */
  function RequestWithdrawal(s: Store, chatId: ChatId, payoutId: string, date: string): (r: Withdrawal)
    requires Registered(s, chatId)
    ensures var u := Account(s, chatId);
      && (r.payout.None? <==> u.solde < MinimumWithdrawal)
      && (r.payout.None? ==> r.store == s)
      && (r.payout.Some? ==>
            && r.payout.value == Payout(payoutId, chatId, u.solde, date)
            && r.store.paiements == s.paiements + [r.payout.value]
            && r.store.users == s.users[Index(s, chatId) := u.(solde := 0)])
  {
    var i := Index(s, chatId);
    var user := s.users[i];
    if user.solde < MinimumWithdrawal then Withdrawal(s, None)
    else
      var retrait := Payout(payoutId, chatId, user.solde, date);
      Withdrawal(Store(s.users[i := user.(solde := 0)], s.paiements + [retrait]), Some(retrait))
  }

  lemma WithdrawalExtends(s: Store, chatId: ChatId, payoutId: string, date: string)
    requires Registered(s, chatId)
    ensures Extends(s, RequestWithdrawal(s, chatId, payoutId, date).store)
    ensures var r := RequestWithdrawal(s, chatId, payoutId, date).store;
      && |r.users| == |s.users|
      && forall k :: 0 <= k < |s.users| ==>
           r.users[k].historique == s.users[k].historique && r.users[k].parrain == s.users[k].parrain
  {
  }

  lemma WithdrawalPreservesValid(s: Store, chatId: ChatId, payoutId: string, date: string)
    requires Valid(s) && Registered(s, chatId)
    ensures Valid(RequestWithdrawal(s, chatId, payoutId, date).store)
  {
    var r := RequestWithdrawal(s, chatId, payoutId, date).store;
    WithdrawalExtends(s, chatId, payoutId, date);
    ExtendsKeepsKeys(s, r);
  }
}
