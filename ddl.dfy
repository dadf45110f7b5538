/** `preventDdlInTransaction`: the guard that refuses data-definition
    statements while a transaction is open. It tests the statement text
    against the PCRE pattern `^\s*(create|drop|alter)` with the `i`
    modifier: leading white space, then one of the three words in any
    letter case, as a plain prefix (no word boundary is required). */
module Ddl {
  import opened Wrappers
  import opened Errors

  /** `\s` of PCRE outside UTF mode: tab, line feed, vertical tab, form
      feed, carriage return and space. */
  predicate IsSpace(c: char)
  {
    c == ' ' || 9 <= c as int <= 13
  }

  /** One character compared without regard to ASCII letter case. */
  function Lower(c: char): char
  {
    if 'A' <= c <= 'Z' then (c as int + 32) as char else c
  }

  /** `word` (lower-case) is a prefix of `s` when case is ignored. */
  predicate StartsWithWord(s: string, word: string)
  {
    |word| <= |s| && forall k :: 0 <= k < |word| ==> Lower(s[k]) == word[k]
  }

  /** What is left once the leading white space is skipped. */
  function SkipSpace(s: string): (t: string)
    ensures |t| <= |s| && t == s[|s| - |t|..]
    ensures forall k :: 0 <= k < |s| - |t| ==> IsSpace(s[k])
    ensures |t| > 0 ==> !IsSpace(t[0])
  {
    if |s| > 0 && IsSpace(s[0]) then SkipSpace(s[1..]) else s
  }

  predicate StartsWithDdlWord(s: string)
  {
    StartsWithWord(s, "create") || StartsWithWord(s, "drop") || StartsWithWord(s, "alter")
  }

  /** The statement matches `^\s*(create|drop|alter)` case-insensitively. */
  predicate IsDdl(sql: string)
  {
    StartsWithDdlWord(SkipSpace(sql))
  }

  /** `preventDdlInTransaction($statement)` given the transaction marker
      (its origin trace while a transaction is open). */
  function PreventDdlInTransaction(inTransaction: Option<string>, sql: string): Outcome<Throwable>
  {
    if inTransaction.Some? && IsDdl(sql) then Fail(DdlInsideTransaction) else Pass
  }

  /** IsDdl is the pattern: some run of white space followed by one of the
      words, whatever the length of the run. */
  lemma IsDdlMeansPattern(sql: string)
    ensures IsDdl(sql) <==>
      exists n :: 0 <= n <= |sql| && (forall k :: 0 <= k < n ==> IsSpace(sql[k])) && StartsWithDdlWord(sql[n..])
  {
    var t := SkipSpace(sql);
    var m := |sql| - |t|;
    if IsDdl(sql) {
      assert sql[m..] == t;
    }
    forall n | 0 <= n <= |sql| && (forall k :: 0 <= k < n ==> IsSpace(sql[k])) && StartsWithDdlWord(sql[n..])
      ensures IsDdl(sql)
    {
      assert sql[n..][0] == sql[n];
      assert !IsSpace(sql[n]);
      assert n == m;
      assert sql[n..] == t;
    }
  }

  /** The guard throws exactly inside a transaction and on a statement of
      that shape, and the exception is "DDL inside transaction". */
  lemma GuardThrowsIff(inTransaction: Option<string>, sql: string)
    ensures PreventDdlInTransaction(inTransaction, sql).Fail? <==> inTransaction.Some? && IsDdl(sql)
    ensures PreventDdlInTransaction(inTransaction, sql).Fail? ==>
            PreventDdlInTransaction(inTransaction, sql).error == Mysql(Generic("DDL inside transaction", 0))
  {
  }

  /** White space and then one of the words is DDL. */
  lemma DdlAfterSpaces(s: string, n: nat, word: string)
    requires n <= |s|
    requires forall k :: 0 <= k < n ==> IsSpace(s[k])
    requires word == "create" || word == "drop" || word == "alter"
    requires StartsWithWord(s[n..], word)
    ensures IsDdl(s)
  {
    IsDdlMeansPattern(s);
  }

  /** A prefix match, not a word match: "Dropbox" after white space counts. */
  lemma NoWordBoundary()
    ensures IsDdl(" \t" + "Dropbox")
  {
    var t := "Dropbox";
    var s := " \t" + t;
    assert s[2..] == t;
    assert Lower(t[0]) == 'd' && Lower(t[1]) == 'r' && Lower(t[2]) == 'o' && Lower(t[3]) == 'p';
    assert StartsWithWord(t, "drop");
    DdlAfterSpaces(s, 2, "drop");
  }

  /** A query is not refused. */
  lemma SelectIsNotDdl()
    ensures !IsDdl("select 1")
  {
    var s := "select 1";
    assert SkipSpace(s) == s;
    assert Lower(s[0]) == 's';
  }
}
