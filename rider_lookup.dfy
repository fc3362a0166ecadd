/** The pure half of `scanRider`: trimming the scanned text, the case-insensitive lookup by
    registration code and then by enrollment number, the eligibility test and the decision taken
    on the rider's existing entry. */
module RiderLookup {
  import opened Wrappers
  import opened Seqs
  import opened Records

  /** The characters `String.prototype.trim` removes: white space and line terminators. */
  predicate IsJsSpace(c: char) {
    var n := c as int;
    n == 0x09 || n == 0x0A || n == 0x0B || n == 0x0C || n == 0x0D || n == 0x20 || n == 0xA0
    || n == 0x1680 || (0x2000 <= n <= 0x200A) || n == 0x2028 || n == 0x2029 || n == 0x202F
    || n == 0x205F || n == 0x3000 || n == 0xFEFF
  }

  function TrimStart(s: string): (r: string)
    ensures |r| <= |s| && r == s[|s| - |r|..]
    ensures r == [] || !IsJsSpace(r[0])
    ensures forall i :: 0 <= i < |s| - |r| ==> IsJsSpace(s[i])
  {
    if s != [] && IsJsSpace(s[0]) then TrimStart(s[1..]) else s
  }

  function TrimEnd(s: string): (r: string)
    ensures |r| <= |s| && r == s[..|r|]
    ensures r == [] || !IsJsSpace(r[|r| - 1])
    ensures forall i :: |r| <= i < |s| ==> IsJsSpace(s[i])
  {
    if s != [] && IsJsSpace(s[|s| - 1]) then TrimEnd(s[..|s| - 1]) else s
  }

  /** The number of white-space characters `s` starts with. */
  function Leading(s: string): (n: nat)
    ensures n <= |s|
    ensures forall k :: 0 <= k < n ==> IsJsSpace(s[k])
    ensures n == |s| || !IsJsSpace(s[n])
  {
    |s| - |TrimStart(s)|
  }

  /** `s.trim()`: the result is a stretch of `s` preceded and followed only by white space, and it
      neither starts nor ends with white space. */
  function Trim(s: string): (r: string)
    ensures Leading(s) + |r| <= |s| && r == s[Leading(s)..Leading(s) + |r|]
    ensures forall k :: Leading(s) + |r| <= k < |s| ==> IsJsSpace(s[k])
    ensures r == [] || (!IsJsSpace(r[0]) && !IsJsSpace(r[|r| - 1]))
  {
    var t := TrimStart(s);
    var r := TrimEnd(t);
    var i := |s| - |t|;
    assert t == s[i..];
    assert r == s[i..i + |r|];
    assert forall k :: i + |r| <= k < |s| ==> s[k] == t[k - i];
    r
  }

  /** Trimming a trimmed string changes nothing. */
  lemma TrimIdempotent(s: string)
    ensures Trim(Trim(s)) == Trim(s)
  {
    var r := Trim(s);
    if r != [] {
      assert TrimStart(r) == r;
      assert TrimEnd(r) == r;
    }
  }

  /** ASCII lower-casing, the case folding the lookup relies on. */
  function LowerChar(c: char): (d: char)
    ensures 'A' <= c <= 'Z' ==> d as int == c as int + 32
    ensures !('A' <= c <= 'Z') ==> d == c
  {
    if 'A' <= c <= 'Z' then (c as int + 32) as char else c
  }

  function Lower(s: string): (r: string)
    ensures |r| == |s|
    ensures forall i :: 0 <= i < |s| ==> r[i] == LowerChar(s[i])
  {
    seq(|s|, i requires 0 <= i < |s| => LowerChar(s[i]))
  }

  /** `.ilike(column, term)` for a term without wildcards: equal up to ASCII case. */
  predicate ILike(value: string, term: string) {
    Lower(value) == Lower(term)
  }

  lemma ILikeIgnoresCase(value: string, term: string)
    ensures ILike(value, term) <==> ILike(Lower(value), term)
    ensures ILike(value, term) <==> ILike(value, Lower(term))
  {
    assert Lower(Lower(value)) == Lower(value);
    assert Lower(Lower(term)) == Lower(term);
  }

  function CodeIs(term: string): Registration -> bool {
    (r: Registration) => ILike(r.code, term)
  }

  function EnrollmentIs(term: string): Registration -> bool {
    (r: Registration) => r.enrollmentNo.Some? && ILike(r.enrollmentNo.value, term)
  }

  /** `.maybeSingle()`: the row when exactly one row matches; no row for none or several. */
  function MaybeSingle(regs: seq<Registration>, p: Registration -> bool): (r: Option<Registration>)
    ensures r.Some? <==> |Filter(regs, p)| == 1
    ensures r.Some? ==> r.value in regs && p(r.value)
  {
    var m := Filter(regs, p);
    if |m| == 1 then
      assert m[0] in multiset(m);
      FilterMember(regs, p, m[0]);
      Some(m[0])
    else None
  }

  /** The registration a scan resolves to: the unique registration whose code matches the trimmed
      term, failing that the unique one whose enrollment number does. */
  function Lookup(regs: seq<Registration>, raw: string): (r: Option<Registration>)
    ensures r.Some? ==> r.value in regs
    ensures var term := Trim(raw);
      && (|Filter(regs, CodeIs(term))| == 1 ==> r.Some? && ILike(r.value.code, term))
      && (|Filter(regs, CodeIs(term))| != 1 ==>
            (r.Some? <==> |Filter(regs, EnrollmentIs(term))| == 1)
            && (r.Some? ==> r.value.enrollmentNo.Some? && ILike(r.value.enrollmentNo.value, term)))
  {
    var term := Trim(raw);
    var byCode := MaybeSingle(regs, CodeIs(term));
    if byCode.Some? then byCode else MaybeSingle(regs, EnrollmentIs(term))
  }

  /** `reg.is_paid && reg.status === 'PAID'`. */
  predicate Eligible(reg: Registration) {
    reg.isPaid && reg.status == "PAID"
  }

  /** What `scanRider` does with the rider's existing entry (the result of `.single()`). */
  datatype EntryAction = RejectCompleted | RejectActive | InsertNew | Requeue

  function Decide(existing: Option<Entry>): (a: EntryAction)
    ensures a == InsertNew <==> existing.None?
    ensures a == RejectCompleted <==> existing.Some? && existing.value.status == Completed
    ensures a == RejectActive <==> existing.Some? && existing.value.status in {Queued, Ready, Racing}
    ensures a == Requeue <==> existing.Some? && existing.value.status in {Cancelled, Disqualified}
  {
    match existing
    case None => InsertNew
    case Some(e) =>
      match e.status
      case Completed => RejectCompleted
      case Queued => RejectActive
      case Ready => RejectActive
      case Racing => RejectActive
      case Cancelled => Requeue
      case Disqualified => Requeue
  }
}
