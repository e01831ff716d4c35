# Huawei switch configuration command generator — a Dafny model

The modelled program is a desktop tool with one panel for each area of a Huawei switch
configuration: VLANs, interface addresses, ACLs, QoS traffic policies, SNMP, STP, link
aggregation (LACP), port mirroring, static and dynamic routing, DHCP pools, NAT, port
security, local users, the managed-device list, global settings and a topology canvas.
Each panel keeps a table of rows. Rows are entered through an add/edit dialog that trims and
checks the fields and refuses bad input with a warning. A preview button turns the selected
row, or the whole table, into the lines of VRP commands an operator would paste into the
switch. The global-settings panel exports its four values as a small JSON text and reads
such a text back. The topology canvas places switches, routers and PCs with the mouse and
joins them with links.

The model keeps the program's logic and drops the widgets:

- `Text` is Java's string behaviour as the panels use it: `trim`, ASCII lower-casing,
  `Integer.parseInt`, `contains` and `String.split`, including its trailing-empty rule.
- `Store` is the table operations every panel shares: add, overwrite the selected row, and
  delete after confirmation. It also models a combo box's `setSelectedItem`.
- `Ports` is the port-label mapping (`XGE口`, `GE口`, `FE口`, `E口`) of the VLAN and IP panels.
- `Commands` is the preview text and the queries used to state what a preview says.
- One module per panel holds the row datatype, the dialog form, `EditForm`, `Validate`,
  `Script` and the properties. Modules are named after the panels.

Every `Validate` follows its `okBtn` handler line by line: the same fields are trimmed, the
checks run in the same order, and the warnings are the same strings. Every `Script` follows
`previewCmd`. The partner properties come in three kinds:

- `Resave…` lemmas: opening the editor on a stored row and saving it unchanged gives the row
  back. For ports, it gives the row back exactly when the label is `E口`, because the
  pre-fill keeps the `口`.
- "carries" lemmas: a command in the preview carries the row's field.
- count lemmas: a command appears exactly when, or as often as, the row says.

The topology canvas is a state machine. Node and link identities stand for Java object
references. New identities come from two counters that only grow, so an identity is never
handed to a second object, just as a new Java object is never `==` to an old one. Every mouse
event and button keeps the invariant `Topology.Valid`:

- identities are unique, and each is below its counter;
- every link joins two different nodes of the list;
- the node selection and the start node of a link drag point into the list;
- the link selection is only an issued link identity: deleting a node also deletes its links,
  so the selected link may no longer be in the list.

The node hit test is computed in 32-bit `int` arithmetic, as Java does.

## Model

| member | source | states |
|---|---|---|
| Store.Append | src/ui/VlanPanel.java:183-184 | adding a row keeps every old row in place and puts the new row last |
| Store.Overwrite | src/ui/VlanPanel.java:185-190 | editing replaces the selected row only; every other row is unchanged |
| Store.RemoveAt | src/ui/VlanPanel.java:208-218 | removing a row keeps the rows before it and moves the later rows up by one |
| Store.Save | src/ui/VlanPanel.java:166-193 | a refused form leaves the table unchanged; an accepted one is appended by the add dialog or overwrites the selected row in the edit dialog |
| Store.OpenEditor | src/ui/VlanPanel.java:197-206 | the edit dialog opens exactly when a row is selected, and it edits that row |
| Store.Delete | src/ui/VlanPanel.java:208-218 | without a selection or a confirmation nothing changes; otherwise exactly the selected row is removed |
| Store.Combo | src/ui/ConfigPanel.java:108-109 | `setSelectedItem` on a fixed list selects the stored value exactly when it is in the list, and otherwise keeps the first item |
| Store.DeleteUndoesAdd | src/ui/VlanPanel.java:183-184 | deleting the row that was just added gives back the original table |
| Store.EditWithSameRowIsIdentity | src/ui/VlanPanel.java:185-190 | saving an edit that changes nothing leaves the table unchanged |
| Store.LastEditWins | src/ui/VlanPanel.java:185-190 | of two edits to the same row, only the later one is kept |
| Store.DeleteRemovesOne | src/ui/VlanPanel.java:215-217 | deleting removes exactly one copy of the selected row (a multiset statement) |
| Ports.Classify | src/ui/VlanPanel.java:232-240 | a port is of a kind exactly when it starts with that kind's label; the four labels never overlap |
| Ports.MapPort | src/ui/VlanPanel.java:231-240 | a known label is replaced by its VRP interface name, and the cut leaves the label's trailing "口" in place; any other port is kept as it is |
| Ports.Prefill | src/ui/VlanPanel.java:128-145 | the edit dialog selects the stored port's label and puts the rest of the port, after the same cut, in the number field; an unknown port goes whole into the number field under the first label |
| Ports.Compose | src/ui/VlanPanel.java:169-171 | the saved port starts with the selected label |
| Ports.ClassifyCompose | src/ui/VlanPanel.java:171 | the kind of a saved port depends on the selected label alone, whatever number was typed |
| Ports.PrefillLabelled | src/ui/VlanPanel.java:128-142 | the edit dialog splits "label + rest" into the label and the leftover "口" followed by the rest |
| Ports.PreviewOfComposed | src/ui/VlanPanel.java:231-240 | a saved port is previewed as the interface name, then the leftover "口" for the three longer labels, then the trimmed number |
| Ports.ResaveOnce | src/ui/VlanPanel.java:128-171 | re-saving a port from the edit dialog gives a port that starts with the pre-selected label |
| Ports.ResaveKnownPort | src/ui/VlanPanel.java:128-171 | re-saving an unchanged labelled port gives it back exactly when the label is "E口"; the other labels gain one "口" per save |
| Ports.ResaveUnknownPort | src/ui/VlanPanel.java:143-145 | a port without a known label is re-saved under "XGE口" and so always changes |
| Commands.When | src/ui/VlanPanel.java:244 | an optional line is present exactly when its condition holds |
| Commands.Render | src/ui/VlanPanel.java:242-247 | the preview text is empty for no lines and otherwise ends in a line break |
| Commands.RenderSplitsBack | src/ui/VlanPanel.java:242-247 | when no line holds a line break, cutting the preview text at the line breaks gives back the lines |
| Commands.CountPrefixed | src/ui/LacpPanel.java:188-210 | the count of lines with a prefix is at most the number of lines, and it is zero exactly when no line has the prefix |
| Commands.ValueAfter | src/ui/VlanPanel.java:242-247 | there is a value exactly when some line has the prefix, and then some line is the prefix followed by that value |
| Text.Trim | src/ui/VlanPanel.java:167-170 | `String.trim`: the result has no character at or below a space at either end, and it is no longer than its input |
| Text.TrimOfTrimmed | src/ui/VlanPanel.java:167-170 | trimming text that is already trimmed changes nothing |
| Text.TrimEmptyIffBlank | src/ui/VlanPanel.java:172 | a trimmed field is empty exactly when every character of it is at or below a space |
| Text.TrimIdempotent | src/ui/VlanPanel.java:167-170 | trimming twice is trimming once |
| Text.Lower | src/ui/DevicePanel.java:237-239 | lower-casing keeps the length and maps 'A'..'Z' to 'a'..'z' |
| Text.LowerIdempotent | src/ui/DevicePanel.java:237-239 | lower-casing twice is lower-casing once |
| Text.ParseInt | src/ui/VlanPanel.java:176-182 | `Integer.parseInt`: a parsed value lies in the 32-bit range; the text is a sign or a digit followed by digits only; a negative value comes from a leading minus |
| Text.ParseIntOfNatToString | src/ui/VlanPanel.java:176-182 | parsing the decimal text of a number gives the number back |
| Text.Split | src/ui/LacpPanel.java:199 | `String.split`: the pieces between matches, with trailing empty pieces dropped, and the whole input when there is no match |
| Text.PiecesRejoin | src/ui/LacpPanel.java:199 | joining the pieces with the separator character gives back the input, and no piece holds that character |
| Text.NonEmptyTrimmed | src/ui/LacpPanel.java:200-202 | every kept piece is trimmed and non-empty, and there are at most as many as pieces |
| Text.NonEmptyTrimmedAppend | src/ui/LacpPanel.java:200-202 | filtering a concatenation is concatenating the filtered parts |
| Text.NonEmptyTrimmedIgnoresTrailingEmpty | src/ui/LacpPanel.java:199-202 | the empty pieces `split` drops at the end make no difference to the filtered items |
| Text.CommaItems | src/ui/LacpPanel.java:198-202 | every item of a comma list is non-empty and trimmed |
| Text.CommaItemsAreFields | src/ui/LacpPanel.java:198-202 | the items are exactly the non-empty trimmed pieces between commas, and those pieces joined with commas give back the list |
| Commands.CommaItemsOfJoin | src/ui/LacpPanel.java:198-202 | joining trimmed, comma-free, non-empty items with commas and reading them back gives the same items |
| Commands.RenderAppend | src/ui/VlanPanel.java:242-247 | rendering two line lists one after the other is rendering their concatenation |
| Commands.CountPrefixedAppend | src/ui/LacpPanel.java:188-210 | counts of prefixed lines add up over a concatenation |
| Commands.ValueAfterAppend | src/ui/VlanPanel.java:242-247 | the first value in a concatenation comes from the first part when it has one |
| Vlan.EditForm | src/ui/VlanPanel.java:122-143 | the edit dialog shows the stored ID and name, and its port-type combo always holds one of the four labels |
| Vlan.Validate | src/ui/VlanPanel.java:166-190 | a VLAN is accepted exactly when the trimmed ID and port number are non-empty and the ID parses in 1..4094; a missing field takes precedence over a bad ID; the stored port is the type label followed by the trimmed number |
| Vlan.Script | src/ui/VlanPanel.java:243-246 | four lines with a name and three without, opening with `vlan <id>` and ending with `quit` |
| Vlan.DescriptionCarriesName | src/ui/VlanPanel.java:244 | the `description` command carries the name, and appears exactly when the name is non-empty |
| Vlan.PortLineCarriesPort | src/ui/VlanPanel.java:231-245 | the `port` command names the row's port in VRP notation |
| Vlan.SavedVlanPort | src/ui/VlanPanel.java:169-245 | a VLAN saved through the dialog is configured on the VRP interface of the chosen type, the leftover "口" of the longer labels, then the trimmed number |
| Vlan.ResaveKeepsEntry | src/ui/VlanPanel.java:122-190 | re-saving a stored row unchanged keeps ID and name, and keeps the port exactly when its type is "E口" |
| Ip.EditForm | src/ui/IpPanel.java:83-104 | the edit dialog shows the stored address and mask, and its interface-type combo always holds one of the four labels |
| Ip.Validate | src/ui/IpPanel.java:127-143 | an entry is accepted exactly when the trimmed address, mask and interface number are non-empty; no address format is checked; the stored interface is the type label followed by the trimmed number |
| Ip.Script | src/ui/IpPanel.java:197-199 | three lines ending with `quit` |
| Ip.ScriptCarriesAddress | src/ui/IpPanel.java:185-199 | the block configures the row's interface in VRP notation and assigns it the row's address and mask |
| Ip.ResaveKeepsEntry | src/ui/IpPanel.java:83-143 | re-saving a stored row unchanged is accepted, and keeps the row exactly when its interface type is "E口" |
| Acl.EditGroupForm | src/ui/AclPanel.java:143-147 | the ACL edit dialog shows the row's number and description; its type combo shows the stored type when it is one of the two types, and always holds one of them |
| Acl.EditRuleForm | src/ui/AclPanel.java:224-233 | the rule edit dialog shows every stored field; the action and protocol combos always hold an item of their lists, the stored one when it is in the list |
| Acl.ValidateGroup | src/ui/AclPanel.java:165-186 | an ACL is accepted exactly when its trimmed number parses in 2000..3999; the empty number and the bad number get their two warnings; the stored row is trimmed |
| Acl.ValidateRule | src/ui/AclPanel.java:261-293 | a rule is accepted exactly when its trimmed sequence number parses in 1..9999; both warnings; every text field is stored trimmed |
| Acl.SelectGroup | src/ui/AclPanel.java:325-334 | selecting an ACL keeps the ACL table and clears the rule table, then reloads the two demo rules only for the first ACL |
| Acl.DeleteGroup | src/ui/AclPanel.java:205-216 | a confirmed delete removes exactly the selected ACL row and clears the selection; the rule table is never touched; otherwise nothing changes |
| Acl.DeleteRule | src/ui/AclPanel.java:312-322 | a confirmed delete removes exactly the selected rule row; the ACL table and its selection stay |
| Acl.DeleteGroupRemovesOnlySelected | src/ui/AclPanel.java:205-216 | with distinct ACL numbers, after the delete the removed number is gone, every other ACL is still listed, there is one row fewer and the rules are the same |
| Acl.PreviewAfterDelete | src/ui/AclPanel.java:336-341 | after a confirmed delete the preview asks for a selection again |
| Acl.PortClause | src/ui/AclPanel.java:359-361 | a port clause is left out exactly when the port is the wildcard "any", and is ` <keyword> eq <port>` otherwise |
| Acl.Remark | src/ui/AclPanel.java:362 | the remark is left out exactly when the description is empty, and is ` // <description>` otherwise |
| Acl.RuleLine | src/ui/AclPanel.java:357-363 | the line starts with ` rule <id> <action> <protocol> source <src>`; ` source-port eq <p>` follows exactly when the source port is not "any"; then ` destination <dst>`; ` destination-port eq <p>` follows exactly when that port is not "any"; the line ends with ` // <d>` when there is a description d, and its length leaves room for nothing else |
| Acl.SourcePortIff | src/ui/AclPanel.java:357-359 | on the whole line, the source text is followed by ` source-port eq <p>` exactly when the source port is not "any" |
| Acl.DestinationPortIff | src/ui/AclPanel.java:360-361 | on the whole line, the destination text is followed by ` destination-port eq <p>` exactly when the destination port is not "any" |
| Acl.RuleLines | src/ui/AclPanel.java:348-364 | one line per rule row, in table order |
| Acl.Script | src/ui/AclPanel.java:345-365 | the block starts with the ACL header, ends with `quit`, and holds one line per rule plus the header, the optional description and `quit`; with a description, the second line is ` description <d>` |
| Acl.RuleLinesInOrder | src/ui/AclPanel.java:347-364 | rule i of the table is line i after the header and the optional description |
| Acl.RuleCount | src/ui/AclPanel.java:345-365 | the number of `rule` lines equals the number of rows in the rule table |
| Acl.HeaderCarriesNumber | src/ui/AclPanel.java:346 | the header names the ACL number, as `number` for "高级" and `basic` for every other type |
| Acl.DefaultRuleLine | src/ui/AclPanel.java:229-233 | a rule saved from the new-rule dialog with only its number filled in is ` rule <n> permit ip source any destination any` |
| Acl.DemoRuleLine | src/ui/AclPanel.java:134 | the first demo rule previews as ` rule 5 permit tcp source 192.168.1.0 0.0.0.255 destination 10.1.1.1 destination-port eq 80 // 允许办公区访问Web` |
| Acl.OtherGroupsHaveNoRules | src/ui/AclPanel.java:328-333 | after selecting any ACL but the first, its preview has no `rule` line |
| Acl.ReselectingFirstRestoresDemo | src/ui/AclPanel.java:325-334 | rules added under the first ACL are lost once another ACL is selected and the first one is selected again: the demo rules are back |
| Qos.EditRuleForm | src/ui/QosPanel.java:216-223 | the rule edit dialog shows the stored fields; the match-type and action combos always hold an item of their lists, the stored one when it is in the list |
| Qos.ValidatePolicy | src/ui/QosPanel.java:164-179 | a policy is accepted exactly when its trimmed name and interface are non-empty; otherwise the one warning; the stored row is trimmed |
| Qos.ValidateRule | src/ui/QosPanel.java:247-275 | a rule is accepted exactly when the trimmed match value is non-empty and the trimmed number parses in 1..9999; a missing field takes precedence over a bad number; the stored row is trimmed |
| Qos.SelectPolicy | src/ui/QosPanel.java:307-314 | selecting a policy keeps the policy table and reloads the rule table: the demo rules for the first policy, nothing for any other |
| Qos.DeletePolicy | src/ui/QosPanel.java:197-208 | a confirmed delete removes exactly the selected policy row and clears the selection; the rule table is never touched; otherwise nothing changes |
| Qos.DeleteRule | src/ui/QosPanel.java:294-304 | a confirmed delete removes exactly the selected rule row; the policy table and its selection stay |
| Qos.MatchClause | src/ui/QosPanel.java:336-349 | the classifier's clause is `if-match protocol`, `src-ip`, `dst-ip` or `dport` and the value for 协议, 源地址, 目的地址 and 端口, and empty exactly when the match type is none of the four |
| Qos.ActionLines | src/ui/QosPanel.java:351-357 | 限速 gives `  car cir <p>`, 优先级 gives `  priority <p>`, 丢弃 gives `  discard`; no line exactly when the action is none of the three |
| Qos.RuleBlock | src/ui/QosPanel.java:335-359 | a rule's block: its classifier with the match clause, its behavior named after the rule number, the action line when there is one, the `  // <note>` line when the note is non-empty, and a closing ` quit`; its length counts exactly these lines |
| Qos.NoteIffNote | src/ui/QosPanel.java:335-359 | a rule's block holds a `  // ` remark line exactly when the rule has a note, and then exactly one |
| Qos.Script | src/ui/QosPanel.java:325-364 | the script starts with `traffic policy <name>`, then ` description <d>` when there is one, then exactly the rule blocks, and ends with ` quit`, `interface <iface>`, ` traffic-policy <name> inbound` and ` quit` |
| Qos.RuleBlocks | src/ui/QosPanel.java:328-360 | the rule blocks together are as long as all the blocks, three to five lines per rule |
| Qos.OffsetStep | src/ui/QosPanel.java:328-360 | each rule's block starts where the previous rule's block ends |
| Qos.RuleBlocksAt | src/ui/QosPanel.java:328-360 | line j of rule i's block is line `Offset(rules, i) + j` of the blocks: every rule, in table order, nothing dropped |
| Qos.RulePosition | src/ui/QosPanel.java:325-364 | in the script, rule i's block follows the header and the description at its offset, before the binding |
| Qos.DescriptionIffDescription | src/ui/QosPanel.java:326-327 | the second line is a ` description ` line exactly when the policy has a description |
| Qos.BlockCounts | src/ui/QosPanel.java:335-359 | each rule block holds exactly one classifier, one behavior and one ` quit` line |
| Qos.BlocksCount | src/ui/QosPanel.java:328-360 | over all rules there are exactly as many classifier, behavior and ` quit` lines as rules |
| Qos.ScriptCounts | src/ui/QosPanel.java:325-364 | the script holds one behavior per rule and two more ` quit` lines than rules |
| Qos.BindingNamesPolicy | src/ui/QosPanel.java:361-364 | the first `interface` line of the script names the policy's interface: no rule block emits one |
| Qos.BlocksIndented | src/ui/QosPanel.java:326-360 | every line between the policy header and the binding starts with a space |
| Qos.OtherPoliciesHaveNoRules | src/ui/QosPanel.java:307-314 | after selecting any policy but the first, its preview holds no behavior line |
| Qos.PreviewAfterDelete | src/ui/QosPanel.java:316-321 | after a confirmed delete the preview asks for a selection again |
| Snmp.EditCommunityForm | src/ui/SnmpPanel.java:146-149 | the community edit dialog shows the stored name and source; the permission combo always holds "RO" or "RW", the stored one when it is one of them |
| Snmp.EditTrapForm | src/ui/SnmpPanel.java:219-223 | the trap edit dialog shows the stored address; the type and version combos always hold an item of their lists, the stored one when it is in the list |
| Snmp.ValidateCommunity | src/ui/SnmpPanel.java:167-182 | a community is accepted exactly when the trimmed name and the permission are non-empty; a blank source is stored as "any", so a saved source is never empty, and it is "any" exactly when the typed source was blank or "any" |
| Snmp.ValidateTrap | src/ui/SnmpPanel.java:241-255 | a trap host is accepted exactly when its trimmed address is non-empty, and it is stored trimmed with the selected type and version |
| Snmp.CommunityLine | src/ui/SnmpPanel.java:293-295 | the line is `snmp-agent community `, the permission in lower case, a space and the name; it goes on exactly when the source is not "any", and then with ` source <src>` |
| Snmp.TrapLine | src/ui/SnmpPanel.java:302-304 | the line starts with `snmp-agent target-host <address> params securityname public` and ends with ` <type> version-<version>`, with nothing in between |
| Snmp.PermissionTokens | src/ui/SnmpPanel.java:293 | the combo's RO and RW are written `ro` and `rw` |
| Snmp.CommunityLines | src/ui/SnmpPanel.java:289-296 | one line per community, in table order |
| Snmp.TrapLines | src/ui/SnmpPanel.java:298-305 | one line per trap host, in table order |
| Snmp.Script | src/ui/SnmpPanel.java:286-306 | the preview is every community line, then every trap line, in table order, and nothing else |
| Snmp.ScriptCounts | src/ui/SnmpPanel.java:286-306 | the preview holds exactly one community line per community and one target-host line per trap host |
| Snmp.BlankSourceIsUnrestricted | src/ui/SnmpPanel.java:175 | a community saved with a blank source previews without a `source` clause |
| Snmp.TypedSourceRestricts | src/ui/SnmpPanel.java:293-294 | a community saved with a typed source other than "any" previews with ` source <src>` at the end |
| Snmp.ResaveCommunity | src/ui/SnmpPanel.java:146-182 | re-saving a stored community unchanged gives back the same row |
| Snmp.ResaveTrap | src/ui/SnmpPanel.java:219-255 | re-saving a stored trap host unchanged gives back the same row |
| Stp.EditPortForm | src/ui/StpPanel.java:149-156 | the port edit dialog shows the stored name and priority; the edge combo is "是" exactly when the stored flag is "是", the status combo is "启用" exactly when the stored status is "启用", and both always hold one of their two items |
| Stp.PriorityValues | src/ui/StpPanel.java:186-188 | the accepted port priorities are exactly the sixteen multiples of 16 from 0 to 240 |
| Stp.ValidatePort | src/ui/StpPanel.java:176-200 | a port is accepted exactly when its trimmed name is non-empty and its trimmed priority parses to a multiple of 16 in 0..240; the missing-name warning comes first; the stored row is trimmed |
| Stp.PortBlock | src/ui/StpPanel.java:255-261 | each port's block is five lines: its interface, its priority, the edge line chosen by "是", the status line chosen by "启用", and ` quit` |
| Stp.PortBlocks | src/ui/StpPanel.java:249-262 | five lines per port |
| Stp.PortBlocksAt | src/ui/StpPanel.java:249-262 | line j of port i's block is line 5·i+j of all blocks: every port, in table order, nothing dropped |
| Stp.ModeLines | src/ui/StpPanel.java:244-246 | the mode line is `stp mode stp`, `stp mode rstp` or `stp mode mstp` exactly for STP, RSTP and MSTP, and absent for any other mode |
| Stp.GlobalLines | src/ui/StpPanel.java:243-247 | the global part is `stp enable`, then exactly the mode line (if any), then `stp priority` with the trimmed bridge priority |
| Stp.Script | src/ui/StpPanel.java:231-263 | with STP off the preview is the single line `undo stp enable`; with STP on it starts with `stp enable`, the mode line comes second when the mode is known, then the `stp priority` line with the trimmed field, then five lines per port |
| Stp.ScriptLayout | src/ui/StpPanel.java:243-262 | with STP on, the preview is exactly the global lines followed by exactly the port blocks |
| Stp.PortBlockPosition | src/ui/StpPanel.java:243-262 | with STP on, port i's block sits right after the global lines, at offset 5·i |
| Stp.PortFlags | src/ui/StpPanel.java:257-260 | for every port, `stp edged-port enable` appears exactly when its edge flag is "是", and ` stp enable` exactly when its status is "启用" |
| Stp.InterfaceCount | src/ui/StpPanel.java:231-263 | the preview opens one interface view per port when STP is on, and none when it is off |
| Stp.ResavePort | src/ui/StpPanel.java:149-200 | re-saving a stored port unchanged gives back the same row |
| Stp.ResaveUnknownFlags | src/ui/StpPanel.java:152-156 | a stored port whose flags are not the first combo items is shown as non-edge and disabled |
| Lacp.EditForm | src/ui/LacpPanel.java:91-97 | the edit dialog shows the stored number, members and description; the mode and load-balance combos always hold an item of their lists, the stored one when it is in the list |
| Lacp.Validate | src/ui/LacpPanel.java:119-145 | a group is accepted exactly when the trimmed members are non-empty and the trimmed number parses in 1..64; a missing field takes precedence over a bad number; the stored row is trimmed |
| Lacp.ModeLine | src/ui/LacpPanel.java:192-193 | the mode line is ` mode lacp` exactly when the mode is "LACP", and manual otherwise |
| Lacp.TrunkBlock | src/ui/LacpPanel.java:190-195 | the Eth-Trunk block names the group, has a description line exactly when the description is non-empty, then the mode line, the load-balance line and ` quit` |
| Lacp.MemberBlock | src/ui/LacpPanel.java:203-205 | one member's block: its interface, ` eth-trunk <group>` and ` quit` |
| Lacp.MemberBlocks | src/ui/LacpPanel.java:200-207 | three lines per member; line j of member i's block is line 3·i+j |
| Lacp.Script | src/ui/LacpPanel.java:188-208 | the preview is the trunk block followed by three lines per non-empty member name |
| Lacp.MemberInOrder | src/ui/LacpPanel.java:199-207 | the k-th member named in the field gets the k-th member block, joined to this group's trunk |
| Lacp.MemberCount | src/ui/LacpPanel.java:188-208 | the preview has exactly one ` eth-trunk` line per non-empty member name |
| Lacp.TrunkNamed | src/ui/LacpPanel.java:190 | the first `interface` line configures the group's Eth-Trunk |
| Lacp.TypedMembers | src/ui/LacpPanel.java:198-207 | members typed as a comma list of port names come out as member blocks for exactly those ports, in order |
| Lacp.ResaveGroup | src/ui/LacpPanel.java:91-145 | re-saving a stored group unchanged gives back the same row |
| Mirror.EditForm | src/ui/MirrorPanel.java:90-97 | the edit dialog shows the stored session, ports and description; the type and direction combos always hold an item of their lists, the stored one when it is in the list |
| Mirror.Validate | src/ui/MirrorPanel.java:121-150 | a session is accepted exactly when the trimmed source and monitor ports are non-empty and the trimmed session number parses in 1..6; a missing field takes precedence over a bad number; the stored row is trimmed |
| Mirror.KindToken | src/ui/MirrorPanel.java:194 | the group type is `local` exactly for "local" or "本地", and `remote-source` for anything else |
| Mirror.DirectionToken | src/ui/MirrorPanel.java:198-204 | `inbound` exactly for "入", `outbound` exactly for "出", `both` exactly for anything else |
| Mirror.Script | src/ui/MirrorPanel.java:193-208 | the preview is the group line, a description line exactly when the description is non-empty, the source line with the direction, the monitor-port line and `quit` |
| Mirror.SameGroupThrice | src/ui/MirrorPanel.java:194-206 | exactly three lines start with `mirroring-group`, and all three carry the same session number and type |
| Mirror.SourceLine | src/ui/MirrorPanel.java:196-204 | the first `source` command names the session's source port followed by its direction token |
| Mirror.ResaveSession | src/ui/MirrorPanel.java:90-150 | re-saving a stored session unchanged gives back the same row |
| Route.EditForm | src/ui/RoutePanel.java:92-97 | the edit dialog shows the stored destination, mask, next hop and parameter; the type combo always holds one of the four types, the stored one when it is among them |
| Route.Validate | src/ui/RoutePanel.java:127-153 | a route is accepted exactly when the trimmed destination and mask are non-empty and, for a static route, the trimmed next hop is neither empty nor `-`; missing destination or mask takes precedence; the stored row is trimmed |
| Route.OrDefault | src/ui/RoutePanel.java:199-204 | an empty parameter is replaced by the protocol's default and any other is kept |
| Route.Script | src/ui/RoutePanel.java:194-212 | one line for a static route, four for RIP and OSPF, three or four for BGP ending in ` quit`; nothing at all exactly when the type is none of the four |
| Route.StaticCarriesNextHop | src/ui/RoutePanel.java:195-196 | a static route's `ip route-static` command carries destination, mask and next hop |
| Route.SavedStaticHasNextHop | src/ui/RoutePanel.java:138-196 | a static route the dialog accepted always routes to a real next hop, never the placeholder `-` |
| Route.RipDefaults | src/ui/RoutePanel.java:197-201 | RIP announces version 2 unless the parameter says otherwise, and the destination is the announced network |
| Route.OspfDefaults | src/ui/RoutePanel.java:202-206 | OSPF uses area 0 unless the parameter says otherwise, and announces destination and mask |
| Route.BgpParameter | src/ui/RoutePanel.java:207-211 | BGP announces destination with its mask, and the parameter gets a line of its own exactly when it is non-empty |
| Route.DemoRepeatsKeyword | src/ui/RoutePanel.java:82-83 | the demo RIP and OSPF rows carry the keyword in their parameter, so their previews repeat it (` version version 2`, ` area area 0`) |
| Route.ResaveRoute | src/ui/RoutePanel.java:92-153 | re-saving a stored route unchanged gives back the same row |
| Dhcp.Validate | src/ui/DhcpPanel.java:120-151 | a pool is accepted exactly when the trimmed name, network, mask and gateway are non-empty and the trimmed lease parses in 1..168; a missing field takes precedence over a bad lease; the stored row is trimmed |
| Dhcp.Script | src/ui/DhcpPanel.java:192-201 | seven lines with a DNS server and six without: `dhcp enable`, the pool, ` network <net> <mask>`, the gateway, the optional `dns-list`, the lease and ` quit` |
| Dhcp.DnsListIffDns | src/ui/DhcpPanel.java:197-199 | a `dns-list` command appears exactly once when the pool has a DNS server and never otherwise |
| Dhcp.SavedLeaseInRange | src/ui/DhcpPanel.java:132-200 | every pool the dialog accepts has a lease of 1 to 168 hours, and the preview's lease line carries it |
| Dhcp.DefaultLeaseAccepted | src/ui/DhcpPanel.java:96-134 | the 24-hour lease the new-pool dialog starts with is itself accepted |
| Dhcp.ResavePool | src/ui/DhcpPanel.java:91-151 | the edit dialog shows the stored row, and re-saving it unchanged gives back the same row |
| Nat.EditForm | src/ui/NatPanel.java:90-96 | the edit dialog shows the stored fields; the type combo always holds one of the two types, the stored one when it is among them |
| Nat.Validate | src/ui/NatPanel.java:120-144 | a policy is accepted exactly when the trimmed name and interface and the type are non-empty; the addresses are free text; the stored row is trimmed |
| Nat.OrAny | src/ui/NatPanel.java:189-193 | an empty address becomes `any`, any other is kept; the result is `any` exactly when the field was empty or `any` |
| Nat.Header | src/ui/NatPanel.java:186 | the header is `nat address-group <name>` exactly for "源NAT", and `nat server <name>` for any other type |
| Nat.Script | src/ui/NatPanel.java:185-197 | header, a description line exactly when the description is non-empty, the rule line and ` quit` |
| Nat.UnusedAddressIgnored | src/ui/NatPanel.java:188-196 | a source-NAT policy's commands do not depend on its destination field, and any other policy's do not depend on its source field |
| Nat.RuleCarriesInterface | src/ui/NatPanel.java:188-196 | the rule names the address (or `any`) and the interface, outbound for source NAT and inbound otherwise |
| Nat.BlankMeansAny | src/ui/NatPanel.java:189-193 | leaving both addresses blank gives the same commands as typing `any` in both |
| Nat.ResavePolicy | src/ui/NatPanel.java:90-144 | re-saving a stored policy unchanged gives back the same row |
| PortSecurity.EditForm | src/ui/PortSecurityPanel.java:91-95 | the edit dialog shows the stored port, maximum and addresses; the action combo always holds one of the three actions, the stored one when it is among them |
| PortSecurity.Validate | src/ui/PortSecurityPanel.java:115-142 | a setting is accepted exactly when the trimmed port is non-empty and the trimmed maximum parses in 1..128; a missing field takes precedence over a bad number; the stored row is trimmed |
| PortSecurity.ViolationLines | src/ui/PortSecurityPanel.java:194-199 | a violation line is written exactly when the action is one of the three known ones, and it names that action |
| PortSecurity.Script | src/ui/PortSecurityPanel.java:181-200 | three fixed lines, then the k-th non-empty trimmed address as the k-th sticky line, the optional violation line and ` quit` |
| PortSecurity.StickyCount | src/ui/PortSecurityPanel.java:185-192 | the preview has exactly one sticky `mac-address` command per non-empty address in the list |
| PortSecurity.ViolationIffKnown | src/ui/PortSecurityPanel.java:194-199 | exactly one violation command when the action is known, none otherwise, and it echoes the action |
| PortSecurity.ListedMacsPinned | src/ui/PortSecurityPanel.java:185-192 | when the field reads back as a given list of addresses, those addresses and only those are pinned, in order |
| PortSecurity.NoMacsNoSticky | src/ui/PortSecurityPanel.java:185 | with the address field empty no address is pinned |
| PortSecurity.ResaveSetting | src/ui/PortSecurityPanel.java:91-142 | re-saving a stored setting unchanged gives back the same row |
| Users.LevelIndex | src/ui/UserPanel.java:92-101 | the edit dialog selects the combo item whose number is the stored level, and the first item for any other level |
| Users.EditForm | src/ui/UserPanel.java:90-103 | the edit dialog shows the stored name, password and note, and its level combo always holds one of the four items |
| Users.LevelNumber | src/ui/UserPanel.java:133-137 | the stored level is always one of 15, 3, 2, 1; an item starting with "15" gives 15 even though it also starts with "1" |
| Users.LabelsMapToNumbers | src/ui/UserPanel.java:91-137 | each of the four combo items maps back to the number in front of it |
| Users.LevelRoundTrip | src/ui/UserPanel.java:92-137 | opening the editor and saving keeps a known level and turns any other level into 15 |
| Users.Validate | src/ui/UserPanel.java:123-149 | a user is accepted exactly when the trimmed name and password are non-empty; the level is stored as its number; the stored row is trimmed |
| Users.NoteIgnored | src/ui/UserPanel.java:184-194 | the note never changes the commands |
| Users.Script | src/ui/UserPanel.java:189-194 | five lines: `local-user <name>`, ` password irreversible-cipher <pwd>`, ` privilege level <level>`, the service types and ` quit` |
| Users.ScriptCarriesUser | src/ui/UserPanel.java:189-194 | the block names the user, sets the stored password in irreversible-cipher form and gives the stored privilege level |
| Users.ResaveUser | src/ui/UserPanel.java:90-149 | re-saving a stored user whose level the combo offers gives back the same row |
| Device.EditForm | src/ui/DevicePanel.java:144-150 | the edit dialog shows the stored name, address and model; the management and status combos always hold an item of their lists, the stored one when it is in the list |
| Device.Validate | src/ui/DevicePanel.java:173-195 | a device is accepted exactly when the trimmed name, address and model are non-empty; the stored row is trimmed |
| Device.FirstMatch | src/ui/DevicePanel.java:233-248 | reference definition of the search: the lowest matching row at or after the start, and none exactly when no row from there on matches |
| Device.Find | src/ui/DevicePanel.java:237 | the substring scan answers yes exactly when the keyword occurs somewhere in the text |
| Device.RowMatches | src/ui/DevicePanel.java:235-241 | the row test answers yes exactly when some cell, lower-cased, contains the lower-cased keyword |
| Device.Search | src/ui/DevicePanel.java:226-252 | a blank keyword clears the selection and only then; otherwise the first matching row is selected, and "not found" is reported exactly when no row matches |
| Device.MatchIgnoresCase | src/ui/DevicePanel.java:237 | lower-casing the keyword first does not change which rows match |
| Device.ExactCellMatches | src/ui/DevicePanel.java:237 | a row with a cell equal to the keyword, up to letter case, always matches |
| Device.AppendKeepsFirstMatch | src/ui/DevicePanel.java:185-248 | adding a device after the first match does not move the search result |
| Device.ResaveDevice | src/ui/DevicePanel.java:144-195 | re-saving a stored device unchanged gives back the same row |
| Config.Assign | src/ui/ConfigPanel.java:107-122 | an imported value replaces its text field as it is; the login combo takes it only when it is one of its items and otherwise keeps its selection; no other setting changes |
| Config.ReadLines | src/ui/ConfigPanel.java:100-104 | the text read line by line and appended is never longer than the file and holds no line break |
| Config.Extract | src/ui/ConfigPanel.java:108-120 | the value read for a key, when there is one, holds no double quote; a missing second piece is the failure case |
| Config.ImportFrom | src/ui/ConfigPanel.java:106-123 | the key-by-key import never reports an unsupported format, and leaves alone every setting whose key is not visited or not present in the text |
| Config.ImportedIffAllRead | src/ui/ConfigPanel.java:106-128 | the import succeeds exactly when every key present in the text yields a value |
| Config.Import | src/ui/ConfigPanel.java:95-131 | a text without `{` is refused as unsupported and changes nothing; no setting whose quoted key is absent changes |
| Config.ExportImportRoundTrip | src/ui/ConfigPanel.java:95-150 | exporting and importing the file restores every setting, the text fields trimmed, into any panel, when no value holds a quote or a line break |
| Config.StableRoundTrip | src/ui/ConfigPanel.java:95-150 | a panel with a known login type and trimmed, plain texts survives export and import exactly |
| Config.ObjectReadsBack | src/ui/ConfigPanel.java:103-142 | the exported object read back line by line is `{`, the members and `}` with the line breaks removed |
| Config.EntryFound | src/ui/ConfigPanel.java:107-142 | each exported member's key occurs in the text read back and yields exactly its value |
| Config.ReadInOrder | src/ui/ConfigPanel.java:106-123 | when all four keys occur and yield values, the import stores the four values in turn and succeeds |
| Config.Reset | src/ui/ConfigPanel.java:87-92 | the reset gives the defaults whatever the panel showed, and the defaults survive a round trip through a file |
| Config.PartialImportOnFailure | src/ui/ConfigPanel.java:107-128 | the import is not atomic: a login type read before a failing timeout key stays selected while the import reports failure |
| Config.UnknownLoginTypeIgnored | src/ui/ConfigPanel.java:107-110 | an unknown login type in the file leaves the combo where it was and the import carries on with the next key |
| Topology.Wrap | src/ui/TopologyPanel.java:98-99 | Java `int` arithmetic: the result is in the signed 32-bit range, equals the value when that is in range, and differs from it by a multiple of 2^32 |
| Topology.HitsIsDisc | src/ui/TopologyPanel.java:97-100 | near the node the 32-bit hit test is exactly the disc test: the squared distance is at most the squared radius |
| Topology.FarNodeHit | src/ui/TopologyPanel.java:97-100 | far away the squares wrap: a node 65536 pixels to the right of the point still counts as hit |
| Topology.NodeAt | src/ui/TopologyPanel.java:199-204 | the node found holds the point and no later node does; nothing is found exactly when no node holds the point |
| Topology.FindNodeAt | src/ui/TopologyPanel.java:199-204 | the backward scan returns the last node holding the point, the same answer as `NodeAt` |
| Topology.LaterNodeOnTop | src/ui/TopologyPanel.java:199-204 | where discs overlap, the node added last wins |
| Topology.LinkAt | src/ui/TopologyPanel.java:206-211 | the link found passes the hit test and no later link does; nothing is found exactly when no link passes |
| Topology.Detach | src/ui/TopologyPanel.java:68 | the links kept are exactly those of the list that do not touch the deleted node |
| Topology.DetachOne | src/ui/TopologyPanel.java:68 | a single link is kept exactly when it does not touch the node |
| Topology.DetachAppend | src/ui/TopologyPanel.java:68 | filtering distributes over concatenation, so the kept links stay in their order |
| Topology.NewNode | src/ui/TopologyPanel.java:90-95 | a new node sits at the press point with radius 32, records its type, and is named the type, `_`, and the random number |
| Topology.NewLink | src/ui/TopologyPanel.java:108-112 | a new link joins its two nodes, is named `a<->b` after them, with bandwidth 1G and delay 1ms |
| Topology.Press | src/ui/TopologyPanel.java:139-168 | in a node mode the press adds one node there with the next node identity, counts it, selects it and leaves the mode; otherwise the nodes stay and the selection is the node hit, or none; in link mode a hit also becomes the drag's start node, which is otherwise unchanged; in select mode a miss selects the link hit (or none), other presses keep the link selection; a node dialog opens for the node hit exactly on a right click on a node in select mode, and a link dialog for the link hit exactly on a right click that misses every node and hits a link |
| Topology.Release | src/ui/TopologyPanel.java:170-181 | outside a link drag nothing changes; ending a drag adds one link, with the next link identity, exactly when the point hits a node other than the start node, and always leaves link mode |
| Topology.Drag | src/ui/TopologyPanel.java:185-191 | a left drag moves the selected node, and only it, to the mouse position |
| Topology.DeleteNode | src/ui/TopologyPanel.java:64-71 | the delete-node button removes the selected node and exactly the links touching it, keeping the others in order (`Detach`), and clears the node selection |
| Topology.DeleteNodeKeepsLinkOrder | src/ui/TopologyPanel.java:64-71 | for any split of the link list, the links left are the kept links of the front followed by the kept links of the back |
| Topology.DeleteLink | src/ui/TopologyPanel.java:73-78 | the delete-link button removes the selected link, leaves the links alone when the selection is no longer in the list, and clears the link selection |
| Topology.EditNode | src/ui/TopologyPanel.java:274-282 | the name is stored trimmed; x changes only when it parses, and y only when both x and y parse |
| Topology.EditLink | src/ui/TopologyPanel.java:300-305 | name, bandwidth and delay are stored trimmed and the link keeps its ends |
| Topology.PressKeepsValid | src/ui/TopologyPanel.java:139-168 | a press keeps identities unique, every link between two different nodes of the list, and the node selection and drag start in the list |
| Topology.ReleaseKeepsValid | src/ui/TopologyPanel.java:170-181 | a release keeps the canvas invariant; no self-loop is ever added |
| Topology.DragKeepsValid | src/ui/TopologyPanel.java:185-191 | a drag keeps the canvas invariant |
| Topology.NodeDialogKeepsValid | src/ui/TopologyPanel.java:260-283 | confirming the node dialog keeps the canvas invariant |
| Topology.LinkDialogKeepsValid | src/ui/TopologyPanel.java:286-306 | confirming the link dialog keeps the canvas invariant |
| Topology.DeleteNodeKeepsValid | src/ui/TopologyPanel.java:64-71 | deleting a node, outside a link drag, keeps the canvas invariant: no link is left dangling |
| Topology.DeleteLinkKeepsValid | src/ui/TopologyPanel.java:73-78 | deleting a link keeps the canvas invariant |
| Topology.ReleaseOnStartAddsNothing | src/ui/TopologyPanel.java:172-176 | releasing on the start node adds no link |
| Topology.PlaceAddsOne | src/ui/TopologyPanel.java:141-146 | on a valid canvas, placing adds exactly one node at the point, with an identity not in the list, and selects it |
| Topology.DeleteNodeRemovesOne | src/ui/TopologyPanel.java:64-71 | deleting a node removes exactly that node's identity, one node fewer |
| Topology.DeleteLinkRemovesOne | src/ui/TopologyPanel.java:73-78 | deleting a selected link in the list removes exactly it: one link fewer, every other link kept; since identities are never reused, the link with the selected identity is the selected object |
| Topology.NewLinkIdentityUnused | src/ui/TopologyPanel.java:174-175 | a new link's identity is held by no link of the canvas and is not the selected one |
| Topology.DeleteNodeLeavesSelectionStale | src/ui/TopologyPanel.java:64-71 | deleting a node that holds the selected link keeps the link selection, which then names no link in the list |
| Topology.StaleSelectionRemovesNothing | src/ui/TopologyPanel.java:73-78 | a stale link selection stays stale through a link drag, and the delete-link button then removes nothing |
| Topology.CascadeThenConnect | src/ui/TopologyPanel.java:64-78 | delete the node holding the selected link, then drag a new link: the delete-link button keeps the new link |

## Left out

- Text.Lower: only 'A'..'Z' are folded. Java's `toLowerCase` (src/ui/DevicePanel.java:237, src/ui/SnmpPanel.java:293) also folds other letters and depends on the default locale. So `Device.Matches`, `Device.Search` and `Snmp.CommunityLine` agree with the program on ASCII text only.
- Text.ParseInt: only the ASCII digits '0'..'9' are accepted. `Integer.parseInt` also accepts other Unicode decimal digits, such as fullwidth digits. Every `Validate` that checks a number range, and `Topology.EditNode`, refuses such input where the program would accept it.
- Topology.LinkAt: the link hit test is the parameter `near`. The program's test is a floating-point point-to-segment distance under 8 pixels (src/ui/TopologyPanel.java:114-126), and no property here depends on it. `Topology.Press` passes `near` through.
- Topology.NewNode: the random number in a new node's name (`Math.random() * 1000`, src/ui/TopologyPanel.java:94) is the parameter `serial`, required to be below 1000.
- Config.Import: the file chooser and the reading of the file are not modelled; the file's text is a parameter. `Failed` stands for the out-of-range index of a missing second `split` piece. An I/O exception from the reader (src/ui/ConfigPanel.java:100, 127-128) is not modelled.
- Config.Export: the member gives the text the export button writes. Writing the file and its `IOException` path (src/ui/ConfigPanel.java:143-147) are not modelled.
- Config.ExportImportRoundTrip: requires that no exported value holds a double quote or a line break. With either, the round trip fails: the import cuts each value at its first quote, and it drops line breaks.
- Acl.DeleteGroup: the member follows `deleteSelectedAcl` (src/ui/AclPanel.java:205-216), which leaves the rule table untouched. In the running program, removing the selected row also fires the table's selection listener (src/ui/AclPanel.java:112-113), which may run `loadAclRules` again and clear the rules. Listener events are not modelled.
- Qos.DeletePolicy: the member follows the delete method (src/ui/QosPanel.java:197-208). The selection-listener reload the removal may fire (src/ui/QosPanel.java:112-113) is not modelled, as for ACLs.
- Route.Validate: the type combo's listener (src/ui/RoutePanel.java:120-125) is not modelled. It disables the next-hop field and writes `-` into it when a non-static type is chosen. The form's next hop is whatever the field holds when OK is pressed.
- Topology.DeleteNodeKeepsValid: requires that no link drag is under way. Between a press and its release on the canvas, the delete button cannot be clicked.
- The message-only actions change no state and are left out: `applyConfig` (src/ui/ConfigPanel.java:73-85), `refreshStatus` (src/ui/DevicePanel.java:254-257) and the STP apply button (src/ui/StpPanel.java:104).
- Swing plumbing is left out: layouts, colours, fonts, hover effects, dialogs as windows, the table's scrolling and the canvas painting (`paintComponent`). An `Output` value stands for what the preview area shows.
- `setAddMode` (src/ui/TopologyPanel.java:195-197) only assigns the canvas mode. It is the field `mode` of `Topology.Canvas`, set directly.
- The topology image export (`exportImage`, src/ui/TopologyPanel.java:309 onwards) writes a PNG file and is left out.
- src/ui/MainFrame.java (navigation between panels) is not part of this model.
