/**
  The command dispatcher: each bot command is one transition of the store,
  run by the handler for the chat that sent it, plus the data its reply
  shows. Commands are applied one at a time.
 */
module Commands {
  import opened Wrappers
  import opened Ledger
  import opened Accounts

  /** The recognised commands; only `/start` carries an argument, the referral code. */
  datatype Command =
    | Start(code: Option<string>)
    | Solde
    | Taches
    | Retirer
    | Payer
    | MonCode

  /** What `nanoid()` and `new Date()` would return while one command runs. */
  datatype Env = Env(userId: string, eventId: string, date: string)

  /** The ephemeral task issuance `/taches` shows. */
  datatype Task = Task(id: string, lien: string, recompense: int)

  /** The data each reply shows; the message text itself is not modelled. */
  datatype Reply =
    | Welcome
    | Balance(solde: int)
    | TaskIssued(task: Task)
    | BelowMinimum
    | WithdrawalRecorded(payout: Payout)
    | PaymentInstructions
    | ReferralCode(code: string)

  datatype Outcome = Outcome(store: Store, reply: Reply)

  /**
    Runs one command for one chat. Every command but `/payer` first makes
    sure the chat has an account, with `env.userId` as the code of a new one.
   */
  function Handle(s: Store, chatId: ChatId, cmd: Command, env: Env): (r: Outcome)
    ensures Extends(s, r.store)
    ensures cmd.Payer? ==> r.store == s
    ensures !cmd.Payer? ==> Registered(r.store, chatId)
    ensures |r.store.users| == if cmd.Payer? || Registered(s, chatId) then |s.users| else |s.users| + 1
    ensures |r.store.paiements| == if r.reply.WithdrawalRecorded? then |s.paiements| + 1 else |s.paiements|
    ensures cmd.Solde? || cmd.MonCode? ==> r.store == InitUser(s, chatId, env.userId)
    ensures cmd.Solde? ==> r.reply == Balance(Account(r.store, chatId).solde)
    ensures cmd.MonCode? ==> r.reply == ReferralCode(Account(r.store, chatId).id)
  {
    match cmd
    case Payer => Outcome(s, PaymentInstructions)
    case Start(code) =>
      var t := InitUser(s, chatId, env.userId);
      InitUserExtends(s, chatId, env.userId);
      ReferralExtends(t, chatId, code);
      ExtendsTransitive(s, t, ApplyReferral(t, chatId, code));
      Outcome(ApplyReferral(t, chatId, code), Welcome)
    case Solde =>
      var t := InitUser(s, chatId, env.userId);
      InitUserExtends(s, chatId, env.userId);
      Outcome(t, Balance(Account(t, chatId).solde))
    case Taches =>
      var t := InitUser(s, chatId, env.userId);
      var tache := Task(env.eventId, TaskLink, TaskReward);
      InitUserExtends(s, chatId, env.userId);
      GrantTaskExtends(t, chatId, tache.id);
      ExtendsTransitive(s, t, GrantTask(t, chatId, tache.id));
      Outcome(GrantTask(t, chatId, tache.id), TaskIssued(tache))
    case Retirer =>
      var t := InitUser(s, chatId, env.userId);
      var w := RequestWithdrawal(t, chatId, env.eventId, env.date);
      InitUserExtends(s, chatId, env.userId);
      WithdrawalExtends(t, chatId, env.eventId, env.date);
      ExtendsTransitive(s, t, w.store);
      Outcome(w.store, if w.payout.None? then BelowMinimum else WithdrawalRecorded(w.payout.value))
    case MonCode =>
      var t := InitUser(s, chatId, env.userId);
      InitUserExtends(s, chatId, env.userId);
      Outcome(t, ReferralCode(Account(t, chatId).id))
  }

  /** Every command keeps every invariant, provided a newly drawn code is unused. */
  lemma HandlePreservesValid(s: Store, chatId: ChatId, cmd: Command, env: Env)
    requires Valid(s)
    requires Registered(s, chatId) || !IsCode(s, env.userId)
    ensures Valid(Handle(s, chatId, cmd, env).store)
  {
    if !cmd.Payer? {
      var t := InitUser(s, chatId, env.userId);
      InitUserPreservesValid(s, chatId, env.userId);
      match cmd
      case Start(code) => ReferralPreservesValid(t, chatId, code);
      case Taches => GrantTaskPreservesValid(t, chatId, env.eventId);
      case Retirer => WithdrawalPreservesValid(t, chatId, env.eventId, env.date);
      case _ =>
    }
  }

  /** Non-negative balances and distinct chat ids hold whatever codes `nanoid()` draws. */
  lemma HandleKeepsCore(s: Store, chatId: ChatId, cmd: Command, env: Env)
    requires BalancesNonNegative(s) && ChatIdsDistinct(s)
    ensures var r := Handle(s, chatId, cmd, env).store;
      BalancesNonNegative(r) && ChatIdsDistinct(r)
  {
    if !cmd.Payer? {
      InitUserUnique(s, chatId, env.userId);
    }
  }

  /** A command addressed to a given chat. */
  datatype Step = Step(chatId: ChatId, cmd: Command, env: Env)

  /** The store after the commands of `steps`, handled in order. */
  function Run(s: Store, steps: seq<Step>): (r: Store)
    decreases |steps|
  {
    if |steps| == 0 then s
    else Run(Handle(s, steps[0].chatId, steps[0].cmd, steps[0].env).store, steps[1..])
  }

  /** The codes the steps may draw are pairwise distinct and unused in `s`. */
  predicate FreshCodes(s: Store, steps: seq<Step>) {
    && (forall k :: 0 <= k < |steps| ==> !IsCode(s, steps[k].env.userId))
    && (forall k, m :: 0 <= k < m < |steps| ==> steps[k].env.userId != steps[m].env.userId)
  }

  /** Every run from the default document with fresh drawn codes keeps every invariant. */
  lemma RunFromEmptyValid(steps: seq<Step>)
    requires FreshCodes(EmptyStore, steps)
    ensures Valid(Run(EmptyStore, steps))
  {
    EmptyStoreValid();
    RunPreservesValid(EmptyStore, steps);
  }

  /** A command brings in no referral code other than the one it drew. */
  lemma HandleCodes(s: Store, chatId: ChatId, cmd: Command, env: Env, code: string)
    requires IsCode(Handle(s, chatId, cmd, env).store, code)
    ensures IsCode(s, code) || code == env.userId
  {
    var r := Handle(s, chatId, cmd, env).store;
    var k :| 0 <= k < |r.users| && r.users[k].id == code;
    if k < |s.users| {
      assert Evolves(s.users[k], r.users[k]);
    } else {
      assert !Registered(s, chatId);
      var t := InitUser(s, chatId, env.userId);
      assert t.users[k].id == env.userId;
    }
  }

  /** Users and payouts are append-only over any sequence of commands; a set referrer is never overwritten. */
  lemma {:induction false} RunExtends(s: Store, steps: seq<Step>)
    ensures Extends(s, Run(s, steps))
    decreases |steps|
  {
    if |steps| > 0 {
      var t := Handle(s, steps[0].chatId, steps[0].cmd, steps[0].env).store;
      RunExtends(t, steps[1..]);
      ExtendsTransitive(s, t, Run(t, steps[1..]));
    }
  }

  /** Over any sequence of commands balances stay non-negative and chat ids distinct. */
  lemma {:induction false} RunKeepsCore(s: Store, steps: seq<Step>)
    requires BalancesNonNegative(s) && ChatIdsDistinct(s)
    ensures BalancesNonNegative(Run(s, steps)) && ChatIdsDistinct(Run(s, steps))
    decreases |steps|
  {
    if |steps| > 0 {
      HandleKeepsCore(s, steps[0].chatId, steps[0].cmd, steps[0].env);
      RunKeepsCore(Handle(s, steps[0].chatId, steps[0].cmd, steps[0].env).store, steps[1..]);
    }
  }

  /** Every sequence of commands keeps every invariant when `nanoid()` never repeats. */
  lemma {:induction false} RunPreservesValid(s: Store, steps: seq<Step>)
    requires Valid(s) && FreshCodes(s, steps)
    ensures Valid(Run(s, steps))
    decreases |steps|
  {
    if |steps| > 0 {
      var st := steps[0];
      var t := Handle(s, st.chatId, st.cmd, st.env).store;
      HandlePreservesValid(s, st.chatId, st.cmd, st.env);
      forall k | 0 <= k < |steps[1..]|
        ensures !IsCode(t, steps[1..][k].env.userId)
      {
        var code := steps[k + 1].env.userId;
        if IsCode(t, code) {
          HandleCodes(s, st.chatId, st.cmd, st.env, code);
        }
      }
      RunPreservesValid(t, steps[1..]);
    }
  }

  // ---------------------------------------------------------------------
  // Scenarios over several commands
  // ---------------------------------------------------------------------

  /** On a known chat, `/taches` is exactly one task grant. */
  lemma TachesOnKnownChat(s: Store, chatId: ChatId, env: Env)
    requires Registered(s, chatId)
    ensures Handle(s, chatId, Taches, env).store == GrantTask(s, chatId, env.eventId)
  {
  }

  /** On a known chat, `/moncode` reads the account's code and changes nothing. */
  lemma MonCodeOnKnownChat(s: Store, chatId: ChatId, env: Env)
    requires Registered(s, chatId)
    ensures Handle(s, chatId, MonCode, env) == Outcome(s, ReferralCode(Account(s, chatId).id))
  {
  }

  /** The history entries a run of `/taches` commands appends, one per step. */
  function TaskEntries(steps: seq<Step>): (r: seq<Entry>)
    ensures |r| == |steps|
    ensures forall k :: 0 <= k < |steps| ==> r[k] == Entry(TaskKind, steps[k].env.eventId, TaskReward)
  {
    if |steps| == 0 then []
    else [Entry(TaskKind, steps[0].env.eventId, TaskReward)] + TaskEntries(steps[1..])
  }

  predicate AllTaches(steps: seq<Step>, chatId: ChatId) {
    forall k :: 0 <= k < |steps| ==> steps[k].chatId == chatId && steps[k].cmd == Taches
  }

  /** Each `/taches` of a known chat adds exactly the reward and one history entry. */
  lemma {:induction false} TachesAccumulate(s: Store, chatId: ChatId, steps: seq<Step>)
    requires Registered(s, chatId) && AllTaches(steps, chatId)
    ensures Registered(Run(s, steps), chatId)
    ensures Account(Run(s, steps), chatId).solde == Account(s, chatId).solde + TaskReward * |steps|
    ensures Account(Run(s, steps), chatId).historique == Account(s, chatId).historique + TaskEntries(steps)
    decreases |steps|
  {
    if |steps| > 0 {
      var env := steps[0].env;
      var t := GrantTask(s, chatId, env.eventId);
      assert steps[0] == Step(chatId, Taches, env);
      TachesOnKnownChat(s, chatId, env);
      assert Run(s, steps) == Run(t, steps[1..]);
      GrantTaskExtends(s, chatId, env.eventId);
      LookupStable(s, t, chatId);
      assert Account(t, chatId).solde == Account(s, chatId).solde + TaskReward;
      assert Account(t, chatId).historique == Account(s, chatId).historique + [Entry(TaskKind, env.eventId, TaskReward)];
      TachesAccumulate(t, chatId, steps[1..]);
      assert TaskEntries(steps) == [Entry(TaskKind, env.eventId, TaskReward)] + TaskEntries(steps[1..]);
    }
  }

  /** From a chat with no account, N `/taches` give a balance of 50*N and N history entries. */
  lemma FreshTaches(s: Store, chatId: ChatId, steps: seq<Step>)
    requires !Registered(s, chatId) && |steps| > 0 && AllTaches(steps, chatId)
    ensures Registered(Run(s, steps), chatId)
    ensures Account(Run(s, steps), chatId).solde == TaskReward * |steps|
    ensures Account(Run(s, steps), chatId).historique == TaskEntries(steps)
    ensures |Account(Run(s, steps), chatId).historique| == |steps|
  {
    var env := steps[0].env;
    var u := InitUser(s, chatId, env.userId);
    assert Index(u, chatId) == |s.users|;
    var t := Handle(s, chatId, Taches, env).store;
    assert t == GrantTask(u, chatId, env.eventId);
    LookupStable(u, t, chatId) by { GrantTaskExtends(u, chatId, env.eventId); }
    TachesAccumulate(t, chatId, steps[1..]);
    assert TaskEntries(steps) == [Entry(TaskKind, env.eventId, TaskReward)] + TaskEntries(steps[1..]);
  }

  /** `/retirer` under the minimum changes nothing beyond creating the account. */
  lemma WithdrawalRefused(s: Store, chatId: ChatId, env: Env)
    requires Account(InitUser(s, chatId, env.userId), chatId).solde < MinimumWithdrawal
    ensures Handle(s, chatId, Retirer, env) == Outcome(InitUser(s, chatId, env.userId), BelowMinimum)
  {
  }

  /**
    `/retirer` at or above the minimum records one payout of the whole
    balance for the caller, and a following `/solde` reports zero.
   */
  lemma WithdrawalThenBalance(s: Store, chatId: ChatId, env: Env, later: Env)
    requires Registered(s, chatId) && Account(s, chatId).solde >= MinimumWithdrawal
    ensures var o := Handle(s, chatId, Retirer, env);
      var p := Payout(env.eventId, chatId, Account(s, chatId).solde, env.date);
      && o.reply == WithdrawalRecorded(p)
      && o.store.paiements == s.paiements + [p]
      && Handle(o.store, chatId, Solde, later).reply == Balance(0)
  {
    var o := Handle(s, chatId, Retirer, env);
    LookupStable(s, o.store, chatId);
  }

  /** Once a referrer is set, `/start` with any code changes nothing and grants no bonus. */
  lemma ReferrerSetOnce(s: Store, chatId: ChatId, code: Option<string>, env: Env)
    requires Registered(s, chatId) && Truthy(Account(s, chatId).parrain)
    ensures Handle(s, chatId, Start(code), env) == Outcome(s, Welcome)
  {
  }

  /** A set referrer survives any later sequence of commands. */
  lemma ReferrerPersists(s: Store, chatId: ChatId, steps: seq<Step>)
    requires Registered(s, chatId) && Truthy(Account(s, chatId).parrain)
    ensures Registered(Run(s, steps), chatId)
    ensures Account(Run(s, steps), chatId).parrain == Account(s, chatId).parrain
  {
    var r := Run(s, steps);
    RunExtends(s, steps);
    LookupStable(s, r, chatId);
    assert Evolves(s.users[Index(s, chatId)], r.users[Index(s, chatId)]);
  }

  /**
    `/start <code>` from a chat with no account, where `code` belongs to an
    existing account: the new account records the referrer and the referrer
    alone gains the bonus.
   */
  lemma NewUserReferral(s: Store, chatId: ChatId, code: string, env: Env)
    requires !Registered(s, chatId) && code != "" && IsCode(s, code)
    ensures var r := Handle(s, chatId, Start(Some(code)), env).store;
      var j := LookupCode(s, code).value;
      && Account(r, chatId).parrain == Some(code)
      && Account(r, chatId).solde == 0
      && r.users[j].solde == s.users[j].solde + ReferralBonus
      && forall k :: 0 <= k < |s.users| && k != j ==> r.users[k] == s.users[k]
  {
    var t := InitUser(s, chatId, env.userId);
    var r := ApplyReferral(t, chatId, Some(code));
    InitUserExtends(s, chatId, env.userId);
    LookupCodeStable(s, t, code);
    assert Index(t, chatId) == |s.users|;
    assert ReferralTakesEffect(t, chatId, Some(code));
    ReferralExtends(t, chatId, Some(code));
    LookupStable(t, r, chatId);
    assert forall k :: 0 <= k < |s.users| ==> t.users[k] == s.users[k];
  }

  /**
    Self-referral is accepted: an account without a referrer that sends its
    own code becomes its own referrer and is credited the bonus.
   */
  lemma SelfReferral(s: Store, chatId: ChatId, env: Env)
    requires CodesDistinct(s) && Registered(s, chatId)
    requires !Truthy(Account(s, chatId).parrain) && Account(s, chatId).id != ""
    ensures var u := Account(s, chatId);
      var r := Handle(s, chatId, Start(Some(u.id)), env).store;
      && Account(r, chatId).parrain == Some(u.id)
      && Account(r, chatId).solde == u.solde + ReferralBonus
  {
    var u := Account(s, chatId);
    CodeUnique(s, u.id, Index(s, chatId));
    var r := ApplyReferral(s, chatId, Some(u.id));
    ReferralExtends(s, chatId, Some(u.id));
    LookupStable(s, r, chatId);
  }

  /** `/moncode` reports the same code for a chat whatever commands come in between. */
  lemma MonCodeStable(s: Store, chatId: ChatId, steps: seq<Step>, env1: Env, env2: Env)
    requires Registered(s, chatId)
    ensures Handle(Run(s, steps), chatId, MonCode, env2).reply == Handle(s, chatId, MonCode, env1).reply
  {
    var r := Run(s, steps);
    RunExtends(s, steps);
    LookupStable(s, r, chatId);
    assert Evolves(s.users[Index(s, chatId)], r.users[Index(s, chatId)]);
    MonCodeOnKnownChat(s, chatId, env1);
    MonCodeOnKnownChat(r, chatId, env2);
  }
}
