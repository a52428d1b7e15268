/** The decorations of the rendered tree (class TreeStyle of kusto_explorer.py).
    Each is a colour sequence followed by a glyph. The colour sequences are the
    ANSI "select graphic rendition" codes behind colorama's Fore and Style
    constants; nothing in the rendering rule depends on them, only on the facts
    proved below: the two connectors are told apart by their first seven
    characters, and the two continuations by their first character. */
module TreeStyle {

  const ESC: string := "\U{1B}["
  const FORE_CYAN: string := ESC + "36m"
  const FORE_GREEN: string := ESC + "32m"
  const FORE_YELLOW: string := ESC + "33m"
  const FORE_WHITE: string := ESC + "37m"
  const STYLE_BRIGHT: string := ESC + "1m"

  /** Decoration before the cluster URL on the header line. */
  const CLUSTER: string := FORE_CYAN + "\U{1F310} " + STYLE_BRIGHT
  /** Decoration before a database name. */
  const DATABASE: string := FORE_GREEN + "\U{1F4C1} " + STYLE_BRIGHT
  /** Decoration before a table name. */
  const TABLE: string := FORE_YELLOW + "\U{1F4CB} "
  /** Continuation under a database that has a later sibling. */
  const PIPE: string := FORE_WHITE + "\U{2502} "
  /** Connector of a node that has a later sibling. */
  const TEE: string := FORE_WHITE + "\U{251C}\U{2500}"
  /** Connector of the last node among its siblings. */
  const ELBOW: string := FORE_WHITE + "\U{2514}\U{2500}"
  /** Continuation under the last database. */
  const SPACE: string := "  "

  /** A line that begins with one connector does not begin with the other. */
  lemma ConnectorStart(c: string, rest: string)
    requires c == TEE || c == ELBOW
    ensures TEE != ELBOW
    ensures ELBOW <= c + rest <==> c == ELBOW
    ensures TEE <= c + rest <==> c == TEE
  {
    var s := c + rest;
    assert |TEE| == |ELBOW| == 7;
    assert s[..7] == c;
    assert TEE[5] != ELBOW[5];
    if c == TEE {
      assert !(ELBOW <= s) by { assert s[5] != ELBOW[5]; }
    } else {
      assert !(TEE <= s) by { assert s[5] != TEE[5]; }
    }
  }

  /** A line that begins with one continuation does not begin with the other. */
  lemma ContinuationStart(p: string, rest: string)
    requires p == PIPE || p == SPACE
    ensures PIPE != SPACE
    ensures SPACE <= p + rest <==> p == SPACE
    ensures PIPE <= p + rest <==> p == PIPE
  {
    var s := p + rest;
    assert s[0] == p[0];
    assert PIPE[0] != SPACE[0];
  }
}
