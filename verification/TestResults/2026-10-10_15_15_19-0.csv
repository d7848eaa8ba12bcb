TestResult.DisplayName,TestResult.Outcome,TestResult.Duration,TestResult.ResourceCount,RandomSeed
Orders.ValidPrefixCons (correctness),Passed,00:00:00.4535425,787170,4
Orders.ValidPrefixCons (well-formedness),Passed,00:00:00.2024476,65952,4
