/** The token filter of `JinjaStatementLexer` (fserve/jinja_parse.py:113-145).
    `next_token` hands out the lookahead buffer `la_buf` first and otherwise
    pulls the next token of a kind that is not ignored; `la(k)` fills the
    buffer up to depth `k`. The filter touches the raw lexer only through
    that pull, so it is stated here over any raw state `L` and its pull
    function `fetch`. */
module Lookahead {
  import opened Results
  import opened Tokens

  /** The pull of one raw token of a kind that is not ignored. */
  type Pull<!L> = L -> Result<(Token, L), Error>

  /** A raw lexer state together with its token lookahead buffer. */
  datatype Buffered<L> = Buffered(raw: L, pending: seq<Token>)

  /** A token and the buffered lexer after it. */
  datatype Out<L> = Out(tok: Token, b: Buffered<L>)

  /** `next_token`: the head of the lookahead buffer, or else a freshly
      pulled token, leaving the buffer empty. */
  function NextToken<L>(b: Buffered<L>, fetch: Pull<L>): (r: Result<Out<L>, Error>)
    ensures |b.pending| > 0 ==> r == Ok(Out(b.pending[0], b.(pending := b.pending[1..])))
    ensures |b.pending| == 0 && r.Ok? ==> fetch(b.raw) == Ok((r.value.tok, r.value.b.raw)) && r.value.b.pending == []
    ensures |b.pending| == 0 && r.Err? ==> fetch(b.raw) == Err(r.error)
  {
    if |b.pending| > 0 then
      Ok(Out(b.pending[0], b.(pending := b.pending[1..])))
    else
      var (t, l) :- fetch(b.raw);
      Ok(Out(t, Buffered(l, [])))
  }

  /** The fill loop of `la`: pull `n` more tokens onto the end of the
      lookahead buffer. */
  function Fill<L>(b: Buffered<L>, fetch: Pull<L>, n: nat): (r: Result<Buffered<L>, Error>)
    ensures r.Ok? ==> |r.value.pending| == |b.pending| + n
    ensures r.Ok? ==> r.value.pending[..|b.pending|] == b.pending
    ensures r.Ok? && n > 0 ==> fetch(b.raw).Ok? && r.value.pending[|b.pending|] == fetch(b.raw).value.0
    decreases n
  {
    if n == 0 then Ok(b)
    else
      var (t, l) :- fetch(b.raw);
      var b1 := Buffered(l, b.pending + [t]);
      var r :- Fill(b1, fetch, n - 1);
      assert r.pending[..|b.pending|] == r.pending[..|b1.pending|][..|b.pending|];
      Ok(r)
  }

  /** `la(k)`: the k-th upcoming token, buffering what it has to read. When
      the buffer is short, the token returned is the last one pulled. */
  function LaToken<L>(b: Buffered<L>, fetch: Pull<L>, k: nat): (r: Result<Out<L>, Error>)
    requires k >= 1
    ensures r.Ok? ==> |r.value.b.pending| == if |b.pending| >= k then |b.pending| else k
    ensures r.Ok? ==> r.value.b.pending[..|b.pending|] == b.pending
    ensures r.Ok? ==> r.value.tok == r.value.b.pending[k - 1]
    ensures |b.pending| >= k ==> r == Ok(Out(b.pending[k - 1], b))
  {
    if |b.pending| >= k then Ok(Out(b.pending[k - 1], b))
    else
      var b1 :- Fill(b, fetch, k - |b.pending|);
      Ok(Out(b1.pending[k - 1], b1))
  }

  /** The next `n` tokens `next_token` would hand out, or the first error. */
  function Upcoming<L>(b: Buffered<L>, fetch: Pull<L>, n: nat): (r: Result<seq<Token>, Error>)
    ensures r.Ok? ==> |r.value| == n
    decreases n
  {
    if n == 0 then Ok([])
    else
      var s :- NextToken(b, fetch);
      var rest :- Upcoming(s.b, fetch, n - 1);
      Ok([s.tok] + rest)
  }

  /** `t` in front of a token sequence, or the error unchanged. */
  function Cons(t: Token, r: Result<seq<Token>, Error>): Result<seq<Token>, Error> {
    match r
    case Ok(ts) => Ok([t] + ts)
    case Err(e) => Err(e)
  }

  lemma UpcomingStep<L>(b: Buffered<L>, fetch: Pull<L>, n: nat)
    requires n > 0
    ensures NextToken(b, fetch).Err? ==> Upcoming(b, fetch, n) == Err(NextToken(b, fetch).error)
    ensures NextToken(b, fetch).Ok? ==>
      Upcoming(b, fetch, n) == Cons(NextToken(b, fetch).value.tok, Upcoming(NextToken(b, fetch).value.b, fetch, n - 1))
  {
  }

  /** Moving the next pulled token onto the end of the buffer changes
      nothing that `next_token` will hand out. */
  lemma {:induction false} BufferPulled<L>(l: L, p: seq<Token>, fetch: Pull<L>, n: nat)
    requires fetch(l).Ok?
    ensures Upcoming(Buffered(fetch(l).value.1, p + [fetch(l).value.0]), fetch, n) == Upcoming(Buffered(l, p), fetch, n)
    decreases n
  {
    var (t, l1) := fetch(l).value;
    var b := Buffered(l, p);
    var b1 := Buffered(l1, p + [t]);
    if n > 0 {
      UpcomingStep(b1, fetch, n);
      UpcomingStep(b, fetch, n);
      if |p| == 0 {
        assert p + [t] == [t];
        assert NextToken(b1, fetch) == Ok(Out(t, Buffered(l1, [])));
      } else {
        assert (p + [t])[1..] == p[1..] + [t];
        BufferPulled(l, p[1..], fetch, n - 1);
      }
    }
  }

  /** Filling the buffer changes nothing that `next_token` will hand out. */
  lemma {:induction false} FillKeepsUpcoming<L>(b: Buffered<L>, fetch: Pull<L>, m: nat, n: nat)
    requires Fill(b, fetch, m).Ok?
    ensures Upcoming(Fill(b, fetch, m).value, fetch, n) == Upcoming(b, fetch, n)
    decreases m
  {
    if m > 0 {
      var (t, l) := fetch(b.raw).value;
      var b1 := Buffered(l, b.pending + [t]);
      assert Fill(b, fetch, m) == Fill(b1, fetch, m - 1);
      FillKeepsUpcoming(b1, fetch, m - 1, n);
      BufferPulled(b.raw, b.pending, fetch, n);
    }
  }

  /** A buffer at least `n` deep is exactly what the next `n` calls return. */
  lemma {:induction false} UpcomingBuffered<L>(b: Buffered<L>, fetch: Pull<L>, n: nat)
    requires |b.pending| >= n
    ensures Upcoming(b, fetch, n) == Ok(b.pending[..n])
    decreases n
  {
    if n > 0 {
      var q := b.(pending := b.pending[1..]);
      UpcomingBuffered(q, fetch, n - 1);
      UpcomingStep(b, fetch, n);
      assert b.pending[..n] == [b.pending[0]] + q.pending[..n - 1];
    }
  }

  /** `la(k)` is non-destructive: afterwards `next_token` hands out exactly
      what it would have handed out before. */
  lemma LaKeepsUpcoming<L>(b: Buffered<L>, fetch: Pull<L>, k: nat, n: nat)
    requires k >= 1 && LaToken(b, fetch, k).Ok?
    ensures Upcoming(LaToken(b, fetch, k).value.b, fetch, n) == Upcoming(b, fetch, n)
  {
    if |b.pending| < k {
      FillKeepsUpcoming(b, fetch, k - |b.pending|, n);
    }
  }

  /** `la(k)` reports the token that the k-th following `next_token`
      returns. */
  lemma LaReportsUpcoming<L>(b: Buffered<L>, fetch: Pull<L>, k: nat)
    requires k >= 1 && LaToken(b, fetch, k).Ok?
    ensures Upcoming(b, fetch, k).Ok? && Upcoming(b, fetch, k).value[k - 1] == LaToken(b, fetch, k).value.tok
  {
    LaKeepsUpcoming(b, fetch, k, k);
    UpcomingBuffered(LaToken(b, fetch, k).value.b, fetch, k);
  }

  /** An error among the next `n` tokens is also the error for any longer
      horizon. */
  lemma {:induction false} UpcomingErrExtends<L>(b: Buffered<L>, fetch: Pull<L>, n: nat, m: nat)
    requires n <= m && Upcoming(b, fetch, n).Err?
    ensures Upcoming(b, fetch, m) == Upcoming(b, fetch, n)
    decreases n
  {
    UpcomingStep(b, fetch, n);
    UpcomingStep(b, fetch, m);
    if NextToken(b, fetch).Ok? {
      UpcomingErrExtends(NextToken(b, fetch).value.b, fetch, n - 1, m - 1);
    }
  }

  /** A failing pull is the error of the call right after the buffer. */
  lemma {:induction false} PullErrUpcoming<L>(b: Buffered<L>, fetch: Pull<L>)
    requires fetch(b.raw).Err?
    ensures Upcoming(b, fetch, |b.pending| + 1) == Err(fetch(b.raw).error)
    decreases |b.pending|
  {
    UpcomingStep(b, fetch, |b.pending| + 1);
    if |b.pending| > 0 {
      PullErrUpcoming(b.(pending := b.pending[1..]), fetch);
    }
  }

  lemma {:induction false} FillErrUpcoming<L>(b: Buffered<L>, fetch: Pull<L>, m: nat)
    requires Fill(b, fetch, m).Err?
    ensures Upcoming(b, fetch, |b.pending| + m) == Err(Fill(b, fetch, m).error)
    decreases m
  {
    if fetch(b.raw).Err? {
      PullErrUpcoming(b, fetch);
      UpcomingErrExtends(b, fetch, |b.pending| + 1, |b.pending| + m);
    } else {
      var (t, l) := fetch(b.raw).value;
      var b1 := Buffered(l, b.pending + [t]);
      assert Fill(b, fetch, m) == Fill(b1, fetch, m - 1);
      FillErrUpcoming(b1, fetch, m - 1);
      BufferPulled(b.raw, b.pending, fetch, |b.pending| + m);
    }
  }

  /** When `la(k)` fails, the k-th following `next_token` fails the same way. */
  lemma LaErrUpcoming<L>(b: Buffered<L>, fetch: Pull<L>, k: nat)
    requires k >= 1 && LaToken(b, fetch, k).Err?
    ensures Upcoming(b, fetch, k) == Err(LaToken(b, fetch, k).error)
  {
    FillErrUpcoming(b, fetch, k - |b.pending|);
  }

  /** `la(k)` reports only tokens the buffer or the pull supplied: whatever
      every pull from an invariant state guarantees of its token, and every
      buffered token satisfies, holds of the reported token and the new
      buffer. */
  lemma {:induction false} FillSupplied<L>(b: Buffered<L>, fetch: Pull<L>, n: nat,
                                           inv: L -> bool, ok: Token -> bool)
    requires forall l | inv(l) && fetch(l).Ok? :: inv(fetch(l).value.1) && ok(fetch(l).value.0)
    requires inv(b.raw) && forall i | 0 <= i < |b.pending| :: ok(b.pending[i])
    requires Fill(b, fetch, n).Ok?
    ensures inv(Fill(b, fetch, n).value.raw)
    ensures forall i | 0 <= i < |Fill(b, fetch, n).value.pending| :: ok(Fill(b, fetch, n).value.pending[i])
    decreases n
  {
    if n > 0 {
      var (t, l) := fetch(b.raw).value;
      var b1 := Buffered(l, b.pending + [t]);
      assert Fill(b, fetch, n) == Fill(b1, fetch, n - 1);
      FillSupplied(b1, fetch, n - 1, inv, ok);
    }
  }

  lemma LaSupplied<L>(b: Buffered<L>, fetch: Pull<L>, k: nat,
                      inv: L -> bool, ok: Token -> bool)
    requires forall l | inv(l) && fetch(l).Ok? :: inv(fetch(l).value.1) && ok(fetch(l).value.0)
    requires inv(b.raw) && forall i | 0 <= i < |b.pending| :: ok(b.pending[i])
    requires k >= 1 && LaToken(b, fetch, k).Ok?
    ensures ok(LaToken(b, fetch, k).value.tok) && inv(LaToken(b, fetch, k).value.b.raw)
    ensures forall i | 0 <= i < |LaToken(b, fetch, k).value.b.pending| :: ok(LaToken(b, fetch, k).value.b.pending[i])
  {
    if |b.pending| < k {
      FillSupplied(b, fetch, k - |b.pending|, inv, ok);
    }
  }

  /** When the pull keeps answering `t` from every invariant state, an
      empty buffer hands out `t` forever. */
  lemma {:induction false} PullFixpoint<L>(l: L, fetch: Pull<L>, n: nat,
                                           inv: L -> bool, t: Token)
    requires forall l' | inv(l') :: fetch(l').Ok? && fetch(l').value.0 == t && inv(fetch(l').value.1)
    requires inv(l)
    ensures Upcoming(Buffered(l, []), fetch, n) == Ok(seq(n, i => t))
    decreases n
  {
    if n > 0 {
      var b := Buffered(l, []);
      UpcomingStep(b, fetch, n);
      PullFixpoint(fetch(l).value.1, fetch, n - 1, inv, t);
      assert seq(n, i => t) == [t] + seq(n - 1, i => t);
    } else {
      assert seq(n, i => t) == [];
    }
  }

  /** The number of tokens in `p` that are not the end-of-input token. */
  function NonEofCount(p: seq<Token>): nat {
    if |p| == 0 then 0 else (if p[0].kind == Eof then 0 else 1) + NonEofCount(p[1..])
  }

  lemma {:induction false} NonEofCountAppend(p: seq<Token>, t: Token)
    ensures NonEofCount(p + [t]) == NonEofCount(p) + (if t.kind == Eof then 0 else 1)
    decreases |p|
  {
    if |p| == 0 {
      assert p + [t] == [t];
      assert [t][1..] == [];
    } else {
      assert (p + [t])[1..] == p[1..] + [t];
      NonEofCountAppend(p[1..], t);
    }
  }

  /** `m` never grows under a pull and shrinks with every pulled token
      except the end of input. */
  ghost predicate Shrinks<L(!new)>(fetch: Pull<L>, m: L -> nat) {
    forall l | fetch(l).Ok? ::
      && m(fetch(l).value.1) <= m(l)
      && (fetch(l).value.0.kind != Eof ==> m(fetch(l).value.1) < m(l))
  }

  /** The termination measure of the parser loops: a buffered token weighs
      less than the raw progress that produced it. */
  function Weight<L>(b: Buffered<L>, m: L -> nat): nat {
    2 * m(b.raw) + NonEofCount(b.pending)
  }

  /** `next_token` never grows the weight, and shrinks it unless it hands
      out the end of input. */
  lemma NextTokenShrinks<L(!new)>(b: Buffered<L>, fetch: Pull<L>, m: L -> nat)
    requires Shrinks(fetch, m) && NextToken(b, fetch).Ok?
    ensures Weight(NextToken(b, fetch).value.b, m) <= Weight(b, m)
    ensures NextToken(b, fetch).value.tok.kind != Eof ==> Weight(NextToken(b, fetch).value.b, m) < Weight(b, m)
  {
  }

  /** `la()` never grows the weight. */
  lemma LaShrinks<L(!new)>(b: Buffered<L>, fetch: Pull<L>, m: L -> nat)
    requires Shrinks(fetch, m) && LaToken(b, fetch, 1).Ok?
    ensures Weight(LaToken(b, fetch, 1).value.b, m) <= Weight(b, m)
  {
    if |b.pending| == 0 {
      var (t, l) := fetch(b.raw).value;
      assert Fill(b, fetch, 1) == Fill(Buffered(l, [t]), fetch, 0);
      NonEofCountAppend([], t);
      assert [] + [t] == [t];
    }
  }

  /** A prefix of a known window of upcoming tokens is known too. */
  lemma {:induction false} UpcomingPrefix<L>(b: Buffered<L>, fetch: Pull<L>, ts: seq<Token>, k: nat)
    requires Upcoming(b, fetch, |ts|) == Ok(ts) && k <= |ts|
    ensures Upcoming(b, fetch, k) == Ok(ts[..k])
    decreases k
  {
    if k > 0 {
      UpcomingStep(b, fetch, |ts|);
      UpcomingStep(b, fetch, k);
      var s := NextToken(b, fetch).value;
      UpcomingPrefix(s.b, fetch, ts[1..], k - 1);
      assert ts[..k] == [ts[0]] + ts[1..][..k - 1];
    }
  }

  /** Within a known window, `next_token` hands out its first token and
      leaves the rest of the window upcoming. */
  lemma NextOfUpcoming<L>(b: Buffered<L>, fetch: Pull<L>, ts: seq<Token>)
    requires |ts| >= 1 && Upcoming(b, fetch, |ts|) == Ok(ts)
    ensures NextToken(b, fetch).Ok? && NextToken(b, fetch).value.tok == ts[0]
    ensures Upcoming(NextToken(b, fetch).value.b, fetch, |ts| - 1) == Ok(ts[1..])
  {
    UpcomingStep(b, fetch, |ts|);
  }

  /** Within a known window, `la()` reports its first token and leaves the
      whole window upcoming. */
  lemma LaOfUpcoming<L>(b: Buffered<L>, fetch: Pull<L>, ts: seq<Token>)
    requires |ts| >= 1 && Upcoming(b, fetch, |ts|) == Ok(ts)
    ensures LaToken(b, fetch, 1).Ok? && LaToken(b, fetch, 1).value.tok == ts[0]
    ensures Upcoming(LaToken(b, fetch, 1).value.b, fetch, |ts|) == Ok(ts)
  {
    UpcomingPrefix(b, fetch, ts, 1);
    if LaToken(b, fetch, 1).Err? {
      LaErrUpcoming(b, fetch, 1);
      assert false;
    }
    LaReportsUpcoming(b, fetch, 1);
    LaKeepsUpcoming(b, fetch, 1, |ts|);
  }

  /** Every token `next_token` hands out was supplied by the buffer or by a
      pull from an invariant state. */
  lemma {:induction false} UpcomingSupplied<L>(b: Buffered<L>, fetch: Pull<L>, n: nat,
                                               inv: L -> bool, ok: Token -> bool)
    requires forall l | inv(l) && fetch(l).Ok? :: inv(fetch(l).value.1) && ok(fetch(l).value.0)
    requires inv(b.raw) && forall i | 0 <= i < |b.pending| :: ok(b.pending[i])
    requires Upcoming(b, fetch, n).Ok?
    ensures forall i | 0 <= i < n :: ok(Upcoming(b, fetch, n).value[i])
    decreases n
  {
    if n > 0 {
      var ts := Upcoming(b, fetch, n).value;
      NextOfUpcoming(b, fetch, ts);
      var s := NextToken(b, fetch).value;
      UpcomingSupplied(s.b, fetch, n - 1, inv, ok);
      forall i | 0 <= i < n
        ensures ok(ts[i])
      {
        if i > 0 {
          assert ts[i] == ts[1..][i - 1];
        }
      }
    }
  }

  /** The index of the first end-of-input token of `ts`, or `|ts|`. */
  function FirstEof(ts: seq<Token>): (i: nat)
    ensures i <= |ts|
    ensures i < |ts| ==> ts[i].kind == Eof
  {
    if |ts| == 0 || ts[0].kind == Eof then 0 else 1 + FirstEof(ts[1..])
  }

  /** Every token `next_token` can hand out is worth one unit of weight
      unless it is the end of input, so a window longer than the weight
      reaches the end of input. */
  lemma {:induction false} EofWithin<L(!new)>(b: Buffered<L>, fetch: Pull<L>, m: L -> nat, n: nat)
    requires Shrinks(fetch, m) && Upcoming(b, fetch, n).Ok? && n > Weight(b, m)
    ensures FirstEof(Upcoming(b, fetch, n).value) < n
    decreases n
  {
    var ts := Upcoming(b, fetch, n).value;
    NextOfUpcoming(b, fetch, ts);
    NextTokenShrinks(b, fetch, m);
    if ts[0].kind != Eof {
      EofWithin(NextToken(b, fetch).value.b, fetch, m, n - 1);
    }
  }
}
