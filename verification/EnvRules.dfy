/** The environment rules that configuration validation enforces. */
module EnvRules {

  /** A letter or underscore, then letters, digits and underscores. */
  predicate ValidKey(k: string) {
    k != "" && !('0' <= k[0] <= '9') &&
    forall i | 0 <= i < |k| :: 'a' <= k[i] <= 'z' || 'A' <= k[i] <= 'Z' || '0' <= k[i] <= '9' || k[i] == '_'
  }

  predicate ValidEnv(m: map<string, string>) {
    forall k | k in m :: ValidKey(k) && '\0' !in m[k] && '\r' !in m[k] && '\n' !in m[k]
  }

  lemma ValidKeyIs(k: string)
    ensures ValidKey(k) <==>
            && |k| > 0 && !(48 <= k[0] as int <= 57)
            && forall i | 0 <= i < |k| ::
                 97 <= k[i] as int <= 122 || 65 <= k[i] as int <= 90 || 48 <= k[i] as int <= 57 || k[i] as int == 95
  {
  }

  /** No value holds a zero byte, a carriage return or a line feed. */
  lemma ValidEnvIs(m: map<string, string>)
    ensures ValidEnv(m) <==>
            forall k | k in m ::
              ValidKey(k) && forall i | 0 <= i < |m[k]| :: m[k][i] as int != 0 && m[k][i] != '\r' && m[k][i] != '\n'
  {
    forall k | k in m
      ensures ('\0' !in m[k] && '\r' !in m[k] && '\n' !in m[k]) <==>
              forall i | 0 <= i < |m[k]| :: m[k][i] as int != 0 && m[k][i] != '\r' && m[k][i] != '\n'
    {
      assert forall i | 0 <= i < |m[k]| :: m[k][i] in m[k] && (m[k][i] as int == 0 <==> m[k][i] == '\0');
    }
  }
}
