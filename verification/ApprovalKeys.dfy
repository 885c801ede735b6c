/**
 What the gate's keys tell apart, on the fields of the asks behind them.
 */
module ApprovalKeys {
  import opened Wrappers
  import opened ApprovalModel

  /** The same session, the same tool and the whole of the arguments. */
  predicate SameCall(a: Ask, b: Ask) { a.session == b.session && a.tool == b.tool && a.args == b.args }

  /** The key of exactly this ask's call. */
  predicate Calls(ask: Ask, k: ExactKey) { k.session == ask.session && k.tool == ask.tool && k.args == ask.args }

  /** A name the dispatcher adds; the model's own have no underscore in front. */
  predicate Dispatchers(name: string) { name != "" && name[0] == '_' }

  /** The arguments are the model's own ones of another map. */
  predicate OwnArgs(own: Args, args: Args) {
    && (forall n :: n in own ==> n in args && !Dispatchers(n) && own[n] == args[n])
    && (forall n :: n in args && !Dispatchers(n) ==> n in own)
  }

  /** The two maps agree on the model's own arguments. */
  predicate SameOwnArgs(a: Args, b: Args) {
    && (forall n :: n in a && !Dispatchers(n) ==> n in b && b[n] == a[n])
    && (forall n :: n in b && !Dispatchers(n) ==> n in a)
  }

  /** The key of a one-shot grant for this ask's call. */
  predicate GrantsCall(k: ExactKey, ask: Ask) { k.session == ask.session && k.tool == ask.tool && OwnArgs(k.args, ask.args) }

  /** The scope a remembered approval covers, as the key it is kept under. */
  predicate Covers(c: CacheKey, ask: Ask) { c.tool == ask.tool && c.scope == ask.scope }

  /** The same first five hundred characters, or the same text if there are fewer. */
  predicate SameStart(a: string, b: string) { forall i :: 0 <= i < 500 ==> SameAt(a, b, i) }

  predicate SameAt(a: string, b: string, i: nat) { (i < |a| <==> i < |b|) && (i < |a| && i < |b| ==> a[i] == b[i]) }

  lemma ExactMeans(ask: Ask, k: ExactKey)
    ensures ask.Exact() == k <==> Calls(ask, k)
  {
  }

  /** Two asks have one exact key exactly when they are the same call, whole arguments included. */
  lemma ExactKeysAgree(a: Ask, b: Ask)
    ensures a.Exact() == b.Exact() <==> SameCall(a, b)
  {
  }

  lemma GrantKeyMeans(session: string, tool: string, args: Args, k: ExactKey)
    ensures GrantKey(session, tool, args) == k <==> k.session == session && k.tool == tool && OwnArgs(k.args, args)
  {
  }

  lemma GrantedMeans(ask: Ask, k: ExactKey)
    ensures ask.Granted() == k <==> GrantsCall(k, ask)
  {
    GrantKeyMeans(ask.session, ask.tool, ask.args, k);
  }

  /** Two one-shot grants have one key exactly when session, tool and the model's own arguments agree. */
  lemma GrantKeysAgree(x: string, t: string, a: Args, y: string, u: string, b: Args)
    ensures GrantKey(x, t, a) == GrantKey(y, u, b) <==> x == y && t == u && SameOwnArgs(a, b)
  {
    GrantKeyMeans(x, t, a, GrantKey(y, u, b));
    GrantKeyMeans(y, u, b, GrantKey(y, u, b));
  }

  lemma CacheMeans(ask: Ask, c: CacheKey)
    ensures ask.Cache() == c <==> Covers(c, ask)
  {
  }

  /** Two previews agree exactly when the texts start alike. */
  lemma PreviewsAgree(a: Ask, b: Ask)
    ensures a.Preview() == b.Preview() <==> SameStart(a.text, b.text)
  {
    var x, y := a.Preview(), b.Preview();
    assert forall i :: 0 <= i < |x| ==> x[i] == a.text[i];
    assert forall i :: 0 <= i < |y| ==> y[i] == b.text[i];
    if SameStart(a.text, b.text) {
      var n := Min(|x|, |y|);
      assert n < 500 ==> SameAt(a.text, b.text, n);
      forall i | 0 <= i < n ensures x[i] == y[i] { assert SameAt(a.text, b.text, i); }
    }
    if x == y {
      forall i | 0 <= i < 500 ensures SameAt(a.text, b.text, i) {
        assert (i < |x| <==> i < |a.text|) && (i < |y| <==> i < |b.text|);
        assert i < |x| ==> a.text[i] == x[i] && b.text[i] == y[i];
      }
    }
  }

  // ---- what an ask gets, on the fields ----

  ghost predicate HasGrant(c: Core, ask: Ask) { exists k :: k in c.grants && GrantsCall(k, ask) }

  predicate HasMemory(c: Core, ask: Ask) {
    !ask.alwaysAsk && ask.session in c.auto && CacheKey(ask.tool, ask.scope) in c.auto[ask.session]
  }

  /** A denial or expiry of exactly this call less than a minute ago. */
  predicate HasMute(c: Core, ask: Ask, now: int) {
    var k := ExactKey(ask.session, ask.tool, ask.args);
    k in c.suppressed && now - c.suppressed[k].ts < 60000
  }

  predicate HasSlot(c: Core, ask: Ask) { ExactKey(ask.session, ask.tool, ask.args) in c.inflight }

  /**
   The first stretch of an ask, whole: a grant for this session, tool and own arguments is spent on it; else the session's
   memory of its tool and scope answers, unless it must always be asked; else a denial or expiry of exactly this call less
   than a minute old does, with its reason; else it rides the card in the slot of exactly this call; else an op's ask
   suspends, and any other opens a card.
   */
  lemma AskGets(c: Core, ask: Ask, now: int)
    ensures var r := AskStep(c, ask, now).1; var k := ExactKey(ask.session, ask.tool, ask.args);
            if HasGrant(c, ask) then
              exists g :: g in c.grants && GrantsCall(g, ask) && r == Returned(Approved(OneShot(c.grants[g])), ByGrant)
            else if HasMemory(c, ask) then r == Returned(Approved(NoGrant), ByMemory)
            else if HasMute(c, ask, now) then r == Returned(Denied(c.suppressed[k].reason), BySuppression)
            else if HasSlot(c, ask) then r == Rides(c.inflight[k])
            else if ask.op.Some? then r == Suspends(CardId(c.nextCard, now))
            else r == Opens(CardId(c.nextCard, now), now) && CardId(c.nextCard, now) in AskStep(c, ask, now).0.pending
  {
    var k := ExactKey(ask.session, ask.tool, ask.args);
    ExactMeans(ask, k);
    CacheMeans(ask, CacheKey(ask.tool, ask.scope));
    GrantedMeans(ask, ask.Granted());
    if g :| g in c.grants && GrantsCall(g, ask) {
      GrantedMeans(ask, g);
    }
  }
}
