/** The request checks shared by the job service and the ingest service. */
module Validate {
  import opened Text

  predicate KeyChar(c: char) {
    'A' <= c <= 'Z' || 'a' <= c <= 'z' || '0' <= c <= '9' || c == '.' || c == '_' || c == ':' || c == '-'
  }

  // validate.IdempotencyKey
  predicate ValidIdempotencyKey(key: string) {
    var trimmed := Trim(key);
    8 <= |trimmed| <= 128 && forall c :: c in trimmed ==> KeyChar(c)
  }

  // validate.Source
  predicate ValidSource(source: string) {
    Fold(source) in {"kundelik", "dnevnikru", "edupage"}
  }

  // The key, trimmed, matches the pattern [A-Za-z0-9._:-]{8,128}.
  method MatchesKeyPattern(key: string) returns (ok: bool)
    ensures ok == ValidIdempotencyKey(key)
  {
    hide Trim;
    var trimmed := Trim(key);
    ok := 8 <= |trimmed| && |trimmed| <= 128;
    for i := 0 to |trimmed|
      invariant ok <==> 8 <= |trimmed| <= 128 && forall k :: 0 <= k < i ==> KeyChar(trimmed[k])
    {
      var c := trimmed[i];
      var letter := ('a' <= c && c <= 'z') || ('A' <= c && c <= 'Z');
      if !letter && !('0' <= c && c <= '9') && c != '.' && c != '_' && c != ':' && c != '-' {
        ok := false;
      }
    }
  }
}
