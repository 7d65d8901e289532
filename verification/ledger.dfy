/**
  The record store of the bot: the JSON document lowdb keeps in memory,
  restricted to the two collections that some command writes (`users` and
  `paiements`), together with the lookups every command performs on it and
  the invariants the commands keep.
 */
module Ledger {
  import opened Wrappers

  /** Telegram chat identifier (`msg.chat.id`), compared with `===`. */
  type ChatId = int

  /** Reward of one `/taches` issuance. */
  const TaskReward: int := 50
  /** Bonus credited to the referrer by `/start <code>`. */
  const ReferralBonus: int := 50
  /** Smallest balance `/retirer` accepts. */
  const MinimumWithdrawal: int := 100
  /** `type` field of the history entry a task grant records. */
  const TaskKind: string := "tache"
  /** The fixed example link every task issuance carries. */
  const TaskLink: string := "https://www.tiktok.com/@exemple/video/123456"

  /** One `historique` entry `{type, id, gain}`. */
  datatype Entry = Entry(kind: string, id: string, gain: int)

  /** One element of `users`; `id` is the user's referral code. */
  datatype User = User(
    chatId: ChatId,
    solde: int,
    id: string,
    historique: seq<Entry>,
    parrain: Option<string>)

  /** One element of `paiements`: a recorded withdrawal request. */
  datatype Payout = Payout(id: string, chatId: ChatId, montant: int, date: string)

  datatype Store = Store(users: seq<User>, paiements: seq<Payout>)

  /** The document written when the file is absent or empty. */
  const EmptyStore: Store := Store([], [])

  /** JavaScript truthiness of an optional string: present and non-empty. */
  predicate Truthy(o: Option<string>) {
    o.Some? && o.value != ""
  }

  /** `Array.prototype.find`, returning the index of the first match. */
  function FindFirst(users: seq<User>, matches: User -> bool): (r: Option<nat>)
    ensures r.Some? ==> r.value < |users| && matches(users[r.value])
    ensures r.Some? ==> forall k :: 0 <= k < r.value ==> !matches(users[k])
    ensures r.None? ==> forall k :: 0 <= k < |users| ==> !matches(users[k])
  {
    if |users| == 0 then None
    else if matches(users[0]) then Some(0)
    else match FindFirst(users[1..], matches)
      case None => None
      case Some(k) => Some(k + 1)
  }

  /** Some user has this chat identifier. */
  predicate Registered(s: Store, c: ChatId) {
    exists k :: 0 <= k < |s.users| && s.users[k].chatId == c
  }

  /** Some user has this referral code. */
  predicate IsCode(s: Store, code: string) {
    exists k :: 0 <= k < |s.users| && s.users[k].id == code
  }

  /** `users.find(u => u.chatId === c)`. */
  function Lookup(s: Store, c: ChatId): (r: Option<nat>)
    ensures r.Some? <==> Registered(s, c)
    ensures r.Some? ==> r.value < |s.users| && s.users[r.value].chatId == c
    ensures r.Some? ==> forall k :: 0 <= k < r.value ==> s.users[k].chatId != c
  {
    FindFirst(s.users, (u: User) => u.chatId == c)
  }

  /** `users.find(u => u.id === code)`. */
  function LookupCode(s: Store, code: string): (r: Option<nat>)
    ensures r.Some? <==> IsCode(s, code)
    ensures r.Some? ==> r.value < |s.users| && s.users[r.value].id == code
    ensures r.Some? ==> forall k :: 0 <= k < r.value ==> s.users[k].id != code
  {
    FindFirst(s.users, (u: User) => u.id == code)
  }

  /** Position of the account a chat identifier resolves to. */
  function Index(s: Store, c: ChatId): (i: nat)
    requires Registered(s, c)
    ensures i < |s.users| && s.users[i].chatId == c
  {
    Lookup(s, c).value
  }

  /** The account a chat identifier resolves to. */
  function Account(s: Store, c: ChatId): (u: User)
    requires Registered(s, c)
    ensures u in s.users && u.chatId == c
  {
    s.users[Index(s, c)]
  }

  // ---------------------------------------------------------------------
  // Invariants
  // ---------------------------------------------------------------------

  predicate BalancesNonNegative(s: Store) {
    forall k :: 0 <= k < |s.users| ==> s.users[k].solde >= 0
  }

  predicate ChatIdsDistinct(s: Store) {
    forall k, m :: 0 <= k < m < |s.users| ==> s.users[k].chatId != s.users[m].chatId
  }

  predicate CodesDistinct(s: Store) {
    forall k, m :: 0 <= k < m < |s.users| ==> s.users[k].id != s.users[m].id
  }

  /** A set referrer always names an existing referral code. */
  predicate ParrainsKnown(s: Store) {
    forall k :: 0 <= k < |s.users| && Truthy(s.users[k].parrain) ==> IsCode(s, s.users[k].parrain.value)
  }

  /** Every payout reached the minimum and belongs to a known chat. */
  predicate PayoutsSound(s: Store) {
    forall k :: 0 <= k < |s.paiements| ==>
      s.paiements[k].montant >= MinimumWithdrawal && Registered(s, s.paiements[k].chatId)
  }

  predicate Valid(s: Store) {
    && BalancesNonNegative(s)
    && ChatIdsDistinct(s)
    && CodesDistinct(s)
    && ParrainsKnown(s)
    && PayoutsSound(s)
  }

  /** The default document satisfies every invariant, so runs may start from it. */
  lemma EmptyStoreValid()
    ensures Valid(EmptyStore)
  {
  }

  // ---------------------------------------------------------------------
  // How a store may evolve
  // ---------------------------------------------------------------------

  /**
    `v` is a later version of account `u`: same chat and code, history only
    appended to, and a set referrer kept.
   */
  predicate Evolves(u: User, v: User) {
    && v.chatId == u.chatId
    && v.id == u.id
    && u.historique <= v.historique
    && (Truthy(u.parrain) ==> v.parrain == u.parrain)
  }

  /** `t` is a later version of `s`: no account lost, payouts only appended. */
  predicate Extends(s: Store, t: Store) {
    && |s.users| <= |t.users|
    && (forall k :: 0 <= k < |s.users| ==> Evolves(s.users[k], t.users[k]))
    && s.paiements <= t.paiements
  }

  lemma ExtendsTransitive(s: Store, t: Store, w: Store)
    requires Extends(s, t) && Extends(t, w)
    ensures Extends(s, w)
  {
    forall k | 0 <= k < |s.users|
      ensures Evolves(s.users[k], w.users[k])
    {
      assert Evolves(t.users[k], w.users[k]);
    }
  }

  /** Chat identifiers and referral codes, once known, stay known. */
  lemma ExtendsKeepsKeys(s: Store, t: Store)
    requires Extends(s, t)
    ensures forall c :: Registered(s, c) ==> Registered(t, c)
    ensures forall code :: IsCode(s, code) ==> IsCode(t, code)
  {
    forall c | Registered(s, c)
      ensures Registered(t, c)
    {
      var k :| 0 <= k < |s.users| && s.users[k].chatId == c;
      assert Evolves(s.users[k], t.users[k]);
    }
    forall code | IsCode(s, code)
      ensures IsCode(t, code)
    {
      var k :| 0 <= k < |s.users| && s.users[k].id == code;
      assert Evolves(s.users[k], t.users[k]);
    }
  }

  /** A chat identifier keeps resolving to the same account as the store evolves. */
  lemma {:induction false} LookupStable(s: Store, t: Store, c: ChatId)
    requires Registered(s, c) && Extends(s, t)
    ensures Registered(t, c) && Index(t, c) == Index(s, c)
  {
    var i := Index(s, c);
    assert Evolves(s.users[i], t.users[i]);
    assert t.users[i].chatId == c;
    forall k | 0 <= k < i
      ensures t.users[k].chatId != c
    {
      assert Evolves(s.users[k], t.users[k]);
    }
  }

  /** A referral code keeps resolving to the same account as the store evolves. */
  lemma {:induction false} LookupCodeStable(s: Store, t: Store, code: string)
    requires IsCode(s, code) && Extends(s, t)
    ensures IsCode(t, code) && LookupCode(t, code) == LookupCode(s, code)
  {
    var j := LookupCode(s, code).value;
    assert Evolves(s.users[j], t.users[j]);
    assert t.users[j].id == code;
    forall k | 0 <= k < j
      ensures t.users[k].id != code
    {
      assert Evolves(s.users[k], t.users[k]);
    }
  }

  /** Under distinct referral codes, the account a code resolves to is its only owner. */
  lemma CodeUnique(s: Store, code: string, k: nat)
    requires CodesDistinct(s) && k < |s.users| && s.users[k].id == code
    ensures IsCode(s, code) && LookupCode(s, code) == Some(k)
  {
  }

  /** Under distinct chat identifiers, the account found is the only one. */
  lemma IndexUnique(s: Store, c: ChatId, k: nat)
    requires ChatIdsDistinct(s) && k < |s.users| && s.users[k].chatId == c
    ensures Registered(s, c) && Index(s, c) == k
  {
  }
}
